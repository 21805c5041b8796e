/** One digest worked out, word by word and round by round, from the definitions of Sha256Spec: that of "abc". */
module Sha256Vector {
  import opened Common
  import opened Sha256Spec

  const ABC: seq<Byte> := [97, 98, 99]

  // The message schedule of its one block.
  const W0: seq<Word> := [0x61626380, 0x00000000, 0x00000000, 0x00000000,
                           0x00000000, 0x00000000, 0x00000000, 0x00000000]
  const W1: seq<Word> := [0x00000000, 0x00000000, 0x00000000, 0x00000000,
                           0x00000000, 0x00000000, 0x00000000, 0x00000018]
  const W2: seq<Word> := [0x61626380, 0x000f0000, 0x7da86405, 0x600003c6,
                           0x3e9d7b78, 0x0183fc00, 0x12dcbfdb, 0xe2e2c38e]
  const W3: seq<Word> := [0xc8215c1a, 0xb73679a2, 0xe5bc3909, 0x32663c5b,
                           0x9d209d67, 0xec8726cb, 0x702138a4, 0xd3b7973b]
  const W4: seq<Word> := [0x93f5997f, 0x3b68ba73, 0xaff4ffc1, 0xf10a5c62,
                           0x0a8b3996, 0x72af830a, 0x9409e33e, 0x24641522]
  const W5: seq<Word> := [0x9f47bf94, 0xf0a64f5a, 0x3e246a79, 0x27333ba3,
                           0x0c4763f2, 0x840abf27, 0x7a290d5d, 0x065c43da]
  const W6: seq<Word> := [0xfb3e89cb, 0xcc7617db, 0xb9e66c34, 0xa9993667,
                           0x84badedd, 0xc21462bc, 0x1487472c, 0xb20f7a99]
  const W7: seq<Word> := [0xef57b9cd, 0xebe6b238, 0x9fe3095e, 0x78bc8d4b,
                           0xa43fcf15, 0x668b2ff8, 0xeeaba2cc, 0x12b1edeb]

  // The eight words from place i on.
  predicate Reads(w: seq<Word>, i: nat, r: seq<Word>)
    requires i + 8 <= |w| && |r| == 8
  {
    && w[i] == r[0] && w[i + 1] == r[1] && w[i + 2] == r[2] && w[i + 3] == r[3]
    && w[i + 4] == r[4] && w[i + 5] == r[5] && w[i + 6] == r[6] && w[i + 7] == r[7]
  }

  // ---- the schedule ----------------------------------------------------------------------------------------

  ghost predicate IsSchedule(block: seq<Byte>, w: seq<Word>): (yes: bool)
    ensures yes ==> |w| == 64
  {
    |block| == BLOCK && w == Schedule(block, 64)
  }

  lemma {:induction false} Grows(block: seq<Byte>, t: nat, n: nat)
    requires |block| == BLOCK && t < n <= 64
    ensures Schedule(block, n)[t] == NextWord(block, Schedule(block, n)[..t])
    ensures Schedule(block, n)[..n - 1] == Schedule(block, n - 1)
  {
    hide NextWord;
    var w := Schedule(block, n - 1);
    assert Schedule(block, n) == w + [NextWord(block, w)];
    if t < n - 1 {
      Grows(block, t, n - 1);
      assert Schedule(block, n)[..t] == w[..t];
    } else {
      assert Schedule(block, n)[..t] == w;
    }
  }

  lemma Next(block: seq<Byte>, w: seq<Word>, t: nat, p: Word, q: Word, r: Word, s: Word, x: Word)
    requires IsSchedule(block, w) && 16 <= t < 64
    requires w[t - 16] == p && w[t - 15] == q && w[t - 7] == r && w[t - 2] == s
    requires Add(Add(Add(p, SmallSigma0(q)), r), SmallSigma1(s)) == x
    ensures w[t] == x
  {
    hide Add, SmallSigma0, SmallSigma1, BigEndian, Schedule;
    Grows(block, t, 64);
  }

  lemma Words16(block: seq<Byte>, w: seq<Word>)
    requires IsSchedule(block, w) && Reads(w, 0, W0) && Reads(w, 8, W1)
    ensures Reads(w, 16, W2)
  {
    hide IsSchedule;
    Next(block, w, 16, 0x61626380, 0x00000000, 0x00000000, 0x00000000, 0x61626380);
    Next(block, w, 17, 0x00000000, 0x00000000, 0x00000000, 0x00000018, 0x000f0000);
    Next(block, w, 18, 0x00000000, 0x00000000, 0x00000000, 0x61626380, 0x7da86405);
    Next(block, w, 19, 0x00000000, 0x00000000, 0x00000000, 0x000f0000, 0x600003c6);
    Next(block, w, 20, 0x00000000, 0x00000000, 0x00000000, 0x7da86405, 0x3e9d7b78);
    Next(block, w, 21, 0x00000000, 0x00000000, 0x00000000, 0x600003c6, 0x0183fc00);
    Next(block, w, 22, 0x00000000, 0x00000000, 0x00000018, 0x3e9d7b78, 0x12dcbfdb);
    Next(block, w, 23, 0x00000000, 0x00000000, 0x61626380, 0x0183fc00, 0xe2e2c38e);
  }

  lemma Words24(block: seq<Byte>, w: seq<Word>)
    requires IsSchedule(block, w) && Reads(w, 8, W1) && Reads(w, 16, W2)
    ensures Reads(w, 24, W3)
  {
    hide IsSchedule;
    Next(block, w, 24, 0x00000000, 0x00000000, 0x000f0000, 0x12dcbfdb, 0xc8215c1a);
    Next(block, w, 25, 0x00000000, 0x00000000, 0x7da86405, 0xe2e2c38e, 0xb73679a2);
    Next(block, w, 26, 0x00000000, 0x00000000, 0x600003c6, 0xc8215c1a, 0xe5bc3909);
    Next(block, w, 27, 0x00000000, 0x00000000, 0x3e9d7b78, 0xb73679a2, 0x32663c5b);
    Next(block, w, 28, 0x00000000, 0x00000000, 0x0183fc00, 0xe5bc3909, 0x9d209d67);
    Next(block, w, 29, 0x00000000, 0x00000000, 0x12dcbfdb, 0x32663c5b, 0xec8726cb);
    Next(block, w, 30, 0x00000000, 0x00000018, 0xe2e2c38e, 0x9d209d67, 0x702138a4);
    Next(block, w, 31, 0x00000018, 0x61626380, 0xc8215c1a, 0xec8726cb, 0xd3b7973b);
  }

  lemma Words32(block: seq<Byte>, w: seq<Word>)
    requires IsSchedule(block, w) && Reads(w, 16, W2) && Reads(w, 24, W3)
    ensures Reads(w, 32, W4)
  {
    hide IsSchedule;
    Next(block, w, 32, 0x61626380, 0x000f0000, 0xb73679a2, 0x702138a4, 0x93f5997f);
    Next(block, w, 33, 0x000f0000, 0x7da86405, 0xe5bc3909, 0xd3b7973b, 0x3b68ba73);
    Next(block, w, 34, 0x7da86405, 0x600003c6, 0x32663c5b, 0x93f5997f, 0xaff4ffc1);
    Next(block, w, 35, 0x600003c6, 0x3e9d7b78, 0x9d209d67, 0x3b68ba73, 0xf10a5c62);
    Next(block, w, 36, 0x3e9d7b78, 0x0183fc00, 0xec8726cb, 0xaff4ffc1, 0x0a8b3996);
    Next(block, w, 37, 0x0183fc00, 0x12dcbfdb, 0x702138a4, 0xf10a5c62, 0x72af830a);
    Next(block, w, 38, 0x12dcbfdb, 0xe2e2c38e, 0xd3b7973b, 0x0a8b3996, 0x9409e33e);
    Next(block, w, 39, 0xe2e2c38e, 0xc8215c1a, 0x93f5997f, 0x72af830a, 0x24641522);
  }

  lemma Words40(block: seq<Byte>, w: seq<Word>)
    requires IsSchedule(block, w) && Reads(w, 24, W3) && Reads(w, 32, W4)
    ensures Reads(w, 40, W5)
  {
    hide IsSchedule;
    Next(block, w, 40, 0xc8215c1a, 0xb73679a2, 0x3b68ba73, 0x9409e33e, 0x9f47bf94);
    Next(block, w, 41, 0xb73679a2, 0xe5bc3909, 0xaff4ffc1, 0x24641522, 0xf0a64f5a);
    Next(block, w, 42, 0xe5bc3909, 0x32663c5b, 0xf10a5c62, 0x9f47bf94, 0x3e246a79);
    Next(block, w, 43, 0x32663c5b, 0x9d209d67, 0x0a8b3996, 0xf0a64f5a, 0x27333ba3);
    Next(block, w, 44, 0x9d209d67, 0xec8726cb, 0x72af830a, 0x3e246a79, 0x0c4763f2);
    Next(block, w, 45, 0xec8726cb, 0x702138a4, 0x9409e33e, 0x27333ba3, 0x840abf27);
    Next(block, w, 46, 0x702138a4, 0xd3b7973b, 0x24641522, 0x0c4763f2, 0x7a290d5d);
    Next(block, w, 47, 0xd3b7973b, 0x93f5997f, 0x9f47bf94, 0x840abf27, 0x065c43da);
  }

  lemma Words48(block: seq<Byte>, w: seq<Word>)
    requires IsSchedule(block, w) && Reads(w, 32, W4) && Reads(w, 40, W5)
    ensures Reads(w, 48, W6)
  {
    hide IsSchedule;
    Next(block, w, 48, 0x93f5997f, 0x3b68ba73, 0xf0a64f5a, 0x7a290d5d, 0xfb3e89cb);
    Next(block, w, 49, 0x3b68ba73, 0xaff4ffc1, 0x3e246a79, 0x065c43da, 0xcc7617db);
    Next(block, w, 50, 0xaff4ffc1, 0xf10a5c62, 0x27333ba3, 0xfb3e89cb, 0xb9e66c34);
    Next(block, w, 51, 0xf10a5c62, 0x0a8b3996, 0x0c4763f2, 0xcc7617db, 0xa9993667);
    Next(block, w, 52, 0x0a8b3996, 0x72af830a, 0x840abf27, 0xb9e66c34, 0x84badedd);
    Next(block, w, 53, 0x72af830a, 0x9409e33e, 0x7a290d5d, 0xa9993667, 0xc21462bc);
    Next(block, w, 54, 0x9409e33e, 0x24641522, 0x065c43da, 0x84badedd, 0x1487472c);
    Next(block, w, 55, 0x24641522, 0x9f47bf94, 0xfb3e89cb, 0xc21462bc, 0xb20f7a99);
  }

  lemma Words56(block: seq<Byte>, w: seq<Word>)
    requires IsSchedule(block, w) && Reads(w, 40, W5) && Reads(w, 48, W6)
    ensures Reads(w, 56, W7)
  {
    hide IsSchedule;
    Next(block, w, 56, 0x9f47bf94, 0xf0a64f5a, 0xcc7617db, 0x1487472c, 0xef57b9cd);
    Next(block, w, 57, 0xf0a64f5a, 0x3e246a79, 0xb9e66c34, 0xb20f7a99, 0xebe6b238);
    Next(block, w, 58, 0x3e246a79, 0x27333ba3, 0xa9993667, 0xef57b9cd, 0x9fe3095e);
    Next(block, w, 59, 0x27333ba3, 0x0c4763f2, 0x84badedd, 0xebe6b238, 0x78bc8d4b);
    Next(block, w, 60, 0x0c4763f2, 0x840abf27, 0xc21462bc, 0x9fe3095e, 0xa43fcf15);
    Next(block, w, 61, 0x840abf27, 0x7a290d5d, 0x1487472c, 0x78bc8d4b, 0x668b2ff8);
    Next(block, w, 62, 0x7a290d5d, 0x065c43da, 0xb20f7a99, 0xa43fcf15, 0xeeaba2cc);
    Next(block, w, 63, 0x065c43da, 0xfb3e89cb, 0xef57b9cd, 0x668b2ff8, 0x12b1edeb);
  }

  // ---- the rounds ------------------------------------------------------------------------------------------

  // One round from v; the other six words only move up.
  lemma Turn(w: seq<Word>, t: nat, v: Vars, k: Word, x: Word, a: Word, e: Word) returns (next: Vars)
    requires |w| == 64 && t < 64 && Rounds(w, VarsOf(INITIAL), t) == v && K[t] == k && w[t] == x
    requires Round(v, k, x) == Vars(a, v.a, v.b, v.c, e, v.e, v.f, v.g)
    ensures next == Vars(a, v.a, v.b, v.c, e, v.e, v.f, v.g)
    ensures Rounds(w, VarsOf(INITIAL), t + 1) == next
  {
    hide Round;
    next := Round(v, k, x);
  }

  const V0: Vars := Vars(0x6a09e667, 0xbb67ae85, 0x3c6ef372, 0xa54ff53a,
                         0x510e527f, 0x9b05688c, 0x1f83d9ab, 0x5be0cd19)
  const V1: Vars := Vars(0x85a07b5f, 0xe5030380, 0x2b4209f5, 0x04409a6a,
                         0x0c657a79, 0x9b27a401, 0x714260ad, 0x43ada245)
  const V2: Vars := Vars(0xb0fa238e, 0xc0645fde, 0xd932eb16, 0x87912990,
                         0x07590dcd, 0x0b92f20c, 0x745a48de, 0x1e578218)
  const V3: Vars := Vars(0xc5d53d8d, 0xa7a3623f, 0xc2606d6d, 0x9dc68b63,
                         0xaa47c347, 0x49f5114a, 0xe1257970, 0x8ada8930)
  const V4: Vars := Vars(0x73b33bf5, 0xea992a22, 0xa0060b30, 0x363482c9,
                         0xba591112, 0x0109ab3a, 0xade79437, 0x6112a3b7)
  const V5: Vars := Vars(0x79ea687a, 0x6dc57a8a, 0x34df1604, 0x41a65cb1,
                         0x1efbc0a0, 0xf0781bc8, 0xa507a53d, 0x0772a26b)
  const V6: Vars := Vars(0x4172328d, 0xa14c14b0, 0x72ab4b91, 0x26628815,
                         0xfecf0bc6, 0xd57b94a9, 0xb7755da1, 0xa80f11f0)
  const V7: Vars := Vars(0x38cc9913, 0x3ec45cdb, 0xf5702fdb, 0x101fd28f,
                         0x54cb266b, 0xe50e1b4f, 0x9f4787c3, 0x529e7d00)
  const V8: Vars := Vars(0x506e3058, 0xd39a2165, 0x04d24d6c, 0xb85e2ce9,
                         0x5ef50f24, 0xfb121210, 0x948d25b6, 0x961f4894)

  lemma Rounds0(w: seq<Word>)
    requires |w| == 64 && Reads(w, 0, W0) && Reads(K, 0, K0)
    requires Rounds(w, VarsOf(INITIAL), 0) == V0
    ensures Rounds(w, VarsOf(INITIAL), 8) == V1
  {
    hide Rounds;
    var v := V0;
    v := Turn(w, 0, v, 0x428a2f98, 0x61626380, 0x5d6aebcd, 0xfa2a4622);
    v := Turn(w, 1, v, 0x71374491, 0x00000000, 0x5a6ad9ad, 0x78ce7989);
    v := Turn(w, 2, v, 0xb5c0fbcf, 0x00000000, 0xc8c347a7, 0xf92939eb);
    v := Turn(w, 3, v, 0xe9b5dba5, 0x00000000, 0xd550f666, 0x24e00850);
    v := Turn(w, 4, v, 0x3956c25b, 0x00000000, 0x04409a6a, 0x43ada245);
    v := Turn(w, 5, v, 0x59f111f1, 0x00000000, 0x2b4209f5, 0x714260ad);
    v := Turn(w, 6, v, 0x923f82a4, 0x00000000, 0xe5030380, 0x9b27a401);
    v := Turn(w, 7, v, 0xab1c5ed5, 0x00000000, 0x85a07b5f, 0x0c657a79);
  }

  lemma Rounds8(w: seq<Word>)
    requires |w| == 64 && Reads(w, 8, W1) && Reads(K, 8, K1)
    requires Rounds(w, VarsOf(INITIAL), 8) == V1
    ensures Rounds(w, VarsOf(INITIAL), 16) == V2
  {
    hide Rounds;
    var v := V1;
    v := Turn(w, 8, v, 0xd807aa98, 0x00000000, 0x8e04ecb9, 0x32ca2d8c);
    v := Turn(w, 9, v, 0x12835b01, 0x00000000, 0x8c87346b, 0x1cc92596);
    v := Turn(w, 10, v, 0x243185be, 0x00000000, 0x4798a3f4, 0x436b23e8);
    v := Turn(w, 11, v, 0x550c7dc3, 0x00000000, 0xf71fc5a9, 0x816fd6e9);
    v := Turn(w, 12, v, 0x72be5d74, 0x00000000, 0x87912990, 0x1e578218);
    v := Turn(w, 13, v, 0x80deb1fe, 0x00000000, 0xd932eb16, 0x745a48de);
    v := Turn(w, 14, v, 0x9bdc06a7, 0x00000000, 0xc0645fde, 0x0b92f20c);
    v := Turn(w, 15, v, 0xc19bf174, 0x00000018, 0xb0fa238e, 0x07590dcd);
  }

  lemma Rounds16(w: seq<Word>)
    requires |w| == 64 && Reads(w, 16, W2) && Reads(K, 16, K2)
    requires Rounds(w, VarsOf(INITIAL), 16) == V2
    ensures Rounds(w, VarsOf(INITIAL), 24) == V3
  {
    hide Rounds;
    var v := V2;
    v := Turn(w, 16, v, 0xe49b69c1, 0x61626380, 0x21da9a9b, 0x8034229c);
    v := Turn(w, 17, v, 0xefbe4786, 0x000f0000, 0xc2fbd9d1, 0x846ee454);
    v := Turn(w, 18, v, 0x0fc19dc6, 0x7da86405, 0xfe777bbf, 0xcc899961);
    v := Turn(w, 19, v, 0x240ca1cc, 0x600003c6, 0xe1f20c33, 0xb0638179);
    v := Turn(w, 20, v, 0x2de92c6f, 0x3e9d7b78, 0x9dc68b63, 0x8ada8930);
    v := Turn(w, 21, v, 0x4a7484aa, 0x0183fc00, 0xc2606d6d, 0xe1257970);
    v := Turn(w, 22, v, 0x5cb0a9dc, 0x12dcbfdb, 0xa7a3623f, 0x49f5114a);
    v := Turn(w, 23, v, 0x76f988da, 0xe2e2c38e, 0xc5d53d8d, 0xaa47c347);
  }

  lemma Rounds24(w: seq<Word>)
    requires |w| == 64 && Reads(w, 24, W3) && Reads(K, 24, K3)
    requires Rounds(w, VarsOf(INITIAL), 24) == V3
    ensures Rounds(w, VarsOf(INITIAL), 32) == V4
  {
    hide Rounds;
    var v := V3;
    v := Turn(w, 24, v, 0x983e5152, 0xc8215c1a, 0x1c2c2838, 0x2823ef91);
    v := Turn(w, 25, v, 0xa831c66d, 0xb73679a2, 0xcde8037d, 0x14383d8e);
    v := Turn(w, 26, v, 0xb00327c8, 0xe5bc3909, 0xb62ec4bc, 0xc74c6516);
    v := Turn(w, 27, v, 0xbf597fc7, 0x32663c5b, 0x77d37528, 0xedffbff8);
    v := Turn(w, 28, v, 0xc6e00bf3, 0x9d209d67, 0x363482c9, 0x6112a3b7);
    v := Turn(w, 29, v, 0xd5a79147, 0xec8726cb, 0xa0060b30, 0xade79437);
    v := Turn(w, 30, v, 0x06ca6351, 0x702138a4, 0xea992a22, 0x0109ab3a);
    v := Turn(w, 31, v, 0x14292967, 0xd3b7973b, 0x73b33bf5, 0xba591112);
  }

  lemma Rounds32(w: seq<Word>)
    requires |w| == 64 && Reads(w, 32, W4) && Reads(K, 32, K4)
    requires Rounds(w, VarsOf(INITIAL), 32) == V4
    ensures Rounds(w, VarsOf(INITIAL), 40) == V5
  {
    hide Rounds;
    var v := V4;
    v := Turn(w, 32, v, 0x27b70a85, 0x93f5997f, 0x98e12507, 0x9cd9f5f6);
    v := Turn(w, 33, v, 0x2e1b2138, 0x3b68ba73, 0xfe604df5, 0x59249dd3);
    v := Turn(w, 34, v, 0x4d2c6dfc, 0xaff4ffc1, 0xa9a7738c, 0x085f3833);
    v := Turn(w, 35, v, 0x53380d13, 0xf10a5c62, 0x65a0cfe4, 0xf4b002d6);
    v := Turn(w, 36, v, 0x650a7354, 0x0a8b3996, 0x41a65cb1, 0x0772a26b);
    v := Turn(w, 37, v, 0x766a0abb, 0x72af830a, 0x34df1604, 0xa507a53d);
    v := Turn(w, 38, v, 0x81c2c92e, 0x9409e33e, 0x6dc57a8a, 0xf0781bc8);
    v := Turn(w, 39, v, 0x92722c85, 0x24641522, 0x79ea687a, 0x1efbc0a0);
  }

  lemma Rounds40(w: seq<Word>)
    requires |w| == 64 && Reads(w, 40, W5) && Reads(K, 40, K5)
    requires Rounds(w, VarsOf(INITIAL), 40) == V5
    ensures Rounds(w, VarsOf(INITIAL), 48) == V6
  {
    hide Rounds;
    var v := V5;
    v := Turn(w, 40, v, 0xa2bfe8a1, 0x9f47bf94, 0xd6670766, 0x26352d63);
    v := Turn(w, 41, v, 0xa81a664b, 0xf0a64f5a, 0xdf46652f, 0x838b2711);
    v := Turn(w, 42, v, 0xc24b8b70, 0x3e246a79, 0x17aa0dfe, 0xdecd4715);
    v := Turn(w, 43, v, 0xc76c51a3, 0x27333ba3, 0x9d4baf93, 0xfda24c2e);
    v := Turn(w, 44, v, 0xd192e819, 0x0c4763f2, 0x26628815, 0xa80f11f0);
    v := Turn(w, 45, v, 0xd6990624, 0x840abf27, 0x72ab4b91, 0xb7755da1);
    v := Turn(w, 46, v, 0xf40e3585, 0x7a290d5d, 0xa14c14b0, 0xd57b94a9);
    v := Turn(w, 47, v, 0x106aa070, 0x065c43da, 0x4172328d, 0xfecf0bc6);
  }

  lemma Rounds48(w: seq<Word>)
    requires |w| == 64 && Reads(w, 48, W6) && Reads(K, 48, K6)
    requires Rounds(w, VarsOf(INITIAL), 48) == V6
    ensures Rounds(w, VarsOf(INITIAL), 56) == V7
  {
    hide Rounds;
    var v := V6;
    v := Turn(w, 48, v, 0x19a4c116, 0xfb3e89cb, 0x05757ceb, 0xbd714038);
    v := Turn(w, 49, v, 0x1e376c08, 0xcc7617db, 0xf11bfaa8, 0x6e5c390c);
    v := Turn(w, 50, v, 0x2748774c, 0xb9e66c34, 0x7a0508a1, 0x52f1ccf7);
    v := Turn(w, 51, v, 0x34b0bcb5, 0xa9993667, 0x886e7a22, 0x49231c1e);
    v := Turn(w, 52, v, 0x391c0cb3, 0x84badedd, 0x101fd28f, 0x529e7d00);
    v := Turn(w, 53, v, 0x4ed8aa4a, 0xc21462bc, 0xf5702fdb, 0x9f4787c3);
    v := Turn(w, 54, v, 0x5b9cca4f, 0x1487472c, 0x3ec45cdb, 0xe50e1b4f);
    v := Turn(w, 55, v, 0x682e6ff3, 0xb20f7a99, 0x38cc9913, 0x54cb266b);
  }

  lemma Rounds56(w: seq<Word>)
    requires |w| == 64 && Reads(w, 56, W7) && Reads(K, 56, K7)
    requires Rounds(w, VarsOf(INITIAL), 56) == V7
    ensures Rounds(w, VarsOf(INITIAL), 64) == V8
  {
    hide Rounds;
    var v := V7;
    v := Turn(w, 56, v, 0x748f82ee, 0xef57b9cd, 0xfcd1887b, 0x9b5e906c);
    v := Turn(w, 57, v, 0x78a5636f, 0xebe6b238, 0xc062d46f, 0x7e44008e);
    v := Turn(w, 58, v, 0x84c87814, 0x9fe3095e, 0xffb70472, 0x6d83bfc6);
    v := Turn(w, 59, v, 0x8cc70208, 0x78bc8d4b, 0xb6ae8fff, 0xb21bad3d);
    v := Turn(w, 60, v, 0x90befffa, 0xa43fcf15, 0xb85e2ce9, 0x961f4894);
    v := Turn(w, 61, v, 0xa4506ceb, 0x668b2ff8, 0x04d24d6c, 0x948d25b6);
    v := Turn(w, 62, v, 0xbef9a3f7, 0xeeaba2cc, 0xd39a2165, 0xfb121210);
    v := Turn(w, 63, v, 0xc67178f2, 0x12b1edeb, 0x506e3058, 0x5ef50f24);
  }

  lemma Rows<T>(a: seq<T>, b: seq<T>, c: seq<T>, d: seq<T>, e: seq<T>, f: seq<T>, g: seq<T>, h: seq<T>, all: seq<T>)
    requires |a| == |b| == |c| == |d| == |e| == |f| == |g| == |h| == 8
    requires all == a + b + c + d + e + f + g + h
    ensures |all| == 64
    ensures all[0..8] == a && all[8..16] == b && all[16..24] == c && all[24..32] == d
    ensures all[32..40] == e && all[40..48] == f && all[48..56] == g && all[56..64] == h
  {
  }

  lemma SliceReads(w: seq<Word>, i: nat, r: seq<Word>)
    requires i + 8 <= |w| && w[i..i + 8] == r
    ensures Reads(w, i, r)
  {
    forall j | 0 <= j < 8
      ensures w[i + j] == r[j]
    {
      assert w[i..i + 8][j] == w[i + j];
    }
  }

  // The rounds of a block whose schedule is the one above.
  lemma AllRounds(w: seq<Word>)
    requires |w| == 64
    requires Reads(w, 0, W0) && Reads(w, 8, W1) && Reads(w, 16, W2) && Reads(w, 24, W3)
    requires Reads(w, 32, W4) && Reads(w, 40, W5) && Reads(w, 48, W6) && Reads(w, 56, W7)
    ensures Rounds(w, VarsOf(INITIAL), 64) == V8
  {
    hide Reads;
    assert Rounds(w, VarsOf(INITIAL), 0) == V0;
    hide Rounds;
    Rows(K0, K1, K2, K3, K4, K5, K6, K7, K);
    SliceReads(K, 0, K0);
    Rounds0(w);
    SliceReads(K, 8, K1);
    Rounds8(w);
    SliceReads(K, 16, K2);
    Rounds16(w);
    SliceReads(K, 24, K3);
    Rounds24(w);
    SliceReads(K, 32, K4);
    Rounds32(w);
    SliceReads(K, 40, K5);
    Rounds40(w);
    SliceReads(K, 48, K6);
    Rounds48(w);
    SliceReads(K, 56, K7);
    Rounds56(w);
  }

  // ---- the block and the digest ----------------------------------------------------------------------------

  lemma FirstWord(block: seq<Byte>, w: seq<Word>, t: nat)
    requires IsSchedule(block, w) && t < 16
    ensures w[t] == BigEndian(block[4 * t], block[4 * t + 1], block[4 * t + 2], block[4 * t + 3])
  {
    hide BigEndian, Schedule;
    Grows(block, t, 64);
  }

  // "abc", the one bit, zeros, and 24 in the last of the length bytes
  ghost predicate IsBlockOfAbc(block: seq<Byte>) {
    && |block| == BLOCK && block[0] == 97 && block[1] == 98 && block[2] == 99 && block[3] == 0x80
    && (forall j :: 4 <= j < 63 ==> block[j] == 0) && block[63] == 24
  }

  lemma PadOfAbc()
    ensures IsBlockOfAbc(Pad(ABC))
  {
    hide LengthBytes, Pow2;
    assert ZeroBytes(3) == 52;
    LengthOf24();
  }

  lemma LengthOf24()
    ensures forall i :: 0 <= i < 8 ==> LengthBytes(24)[i] == if i == 7 then 24 else 0
  {
    assert Pow2(0) == 1 && Pow2(8) == 0x100 && Pow2(16) == 0x1_0000 && Pow2(24) == 0x100_0000;
    assert Pow2(32) == 0x1_0000_0000 && Pow2(40) == 0x100_0000_0000;
    assert Pow2(48) == 0x1_0000_0000_0000 && Pow2(56) == 0x100_0000_0000_0000;
  }

  lemma FirstWords(block: seq<Byte>, w: seq<Word>)
    requires IsSchedule(block, w) && IsBlockOfAbc(block)
    ensures Reads(w, 0, W0) && Reads(w, 8, W1)
  {
    hide IsSchedule;
    assert BigEndian(97, 98, 99, 0x80) == 0x61626380 && BigEndian(0, 0, 0, 24) == 0x18 && BigEndian(0, 0, 0, 0) == 0;
    hide BigEndian;
    forall t | 0 <= t < 16
      ensures w[t] == if t == 0 then 0x61626380 else if t == 15 then 0x18 else 0
    {
      FirstWord(block, w, t);
    }
  }

  lemma CompressedBlock(block: seq<Byte>)
    requires IsBlockOfAbc(block)
    ensures Compress(INITIAL, block) == DIGEST
  {
    hide Reads, Rounds;
    var w := Schedule(block, 64);
    assert IsSchedule(block, w);
    hide Schedule, IsSchedule, IsBlockOfAbc;
    FirstWords(block, w);
    Words16(block, w);
    Words24(block, w);
    Words32(block, w);
    Words40(block, w);
    Words48(block, w);
    Words56(block, w);
    AllRounds(w);
  }

  const DIGEST: seq<Word> := [0xba7816bf, 0x8f01cfea, 0x414140de, 0x5dae2223,
                               0xb00361a3, 0x96177a9c, 0xb410ff61, 0xf20015ad]

  const FIRST: string := "ba7816bf8f01cfea414140de5dae2223"
  const LAST: string := "b00361a396177a9cb410ff61f20015ad"

  lemma HashOfAbc()
    ensures HashBlocks(Pad(ABC)) == DIGEST
  {
    PadOfAbc();
    var p := Pad(ABC);
    assert |p| == BLOCK;
    hide Pad, Compress, IsBlockOfAbc;
    CompressedBlock(p);
    assert p[..0] == [] && p[0..] == p;
    assert HashBlocks([]) == INITIAL;
  }

  lemma FirstSpelled()
    ensures HexWord(0xba7816bf) == "ba7816bf"
    ensures HexWord(0x8f01cfea) == "8f01cfea"
  {
  }

  lemma SecondSpelled()
    ensures HexWord(0x414140de) == "414140de"
    ensures HexWord(0x5dae2223) == "5dae2223"
  {
  }

  lemma ThirdSpelled()
    ensures HexWord(0xb00361a3) == "b00361a3"
    ensures HexWord(0x96177a9c) == "96177a9c"
  {
  }

  lemma LastSpelled()
    ensures HexWord(0xb410ff61) == "b410ff61"
    ensures HexWord(0xf20015ad) == "f20015ad"
  {
  }

  lemma OneMore(h: seq<Word>, i: nat)
    requires i < |h|
    ensures HexWords(h[..i + 1]) == HexWords(h[..i]) + HexWord(h[i])
  {
    assert h[..i + 1][..i] == h[..i];
  }

  // `before` and what the next four words are spelled.
  lemma FourMore(h: seq<Word>, i: nat, before: string, a: string, b: string, c: string, d: string)
    requires i + 4 <= |h| && HexWords(h[..i]) == before
    requires HexWord(h[i]) == a && HexWord(h[i + 1]) == b && HexWord(h[i + 2]) == c && HexWord(h[i + 3]) == d
    ensures HexWords(h[..i + 4]) == before + a + b + c + d
  {
    hide HexWord, HexWords;
    OneMore(h, i);
    OneMore(h, i + 1);
    OneMore(h, i + 2);
    OneMore(h, i + 3);
  }

  lemma FirstHalf()
    ensures HexWords(DIGEST[..4]) == "" + "ba7816bf" + "8f01cfea" + "414140de" + "5dae2223"
  {
    assert HexWords(DIGEST[..0]) == "";
    hide HexWord, HexWords;
    FirstSpelled();
    SecondSpelled();
    FourMore(DIGEST, 0, "", "ba7816bf", "8f01cfea", "414140de", "5dae2223");
  }

  lemma FirstJoined()
    ensures "" + "ba7816bf" + "8f01cfea" + "414140de" + "5dae2223" == FIRST
  {
  }

  lemma SpelledOut()
    ensures HexWords(DIGEST) == FIRST + LAST
  {
    hide HexWord, HexWords;
    FirstHalf();
    FirstJoined();
    ThirdSpelled();
    LastSpelled();
    FourMore(DIGEST, 4, FIRST, "b00361a3", "96177a9c", "b410ff61", "f20015ad");
    assert DIGEST[..8] == DIGEST;
  }

  // The digest the standard's example gives for "abc".
  lemma DigestOfAbc()
    ensures Sha256Hex(ABC) == FIRST + LAST
  {
    hide HexWord, HexWords, HashBlocks, Pad;
    HashOfAbc();
    SpelledOut();
  }
}
