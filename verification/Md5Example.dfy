/** Boost_Searcher/limonp/include/limonp/Md5.hpp: the digest of "abc" is the one that the test suite in appendix A.5 of RFC 1321
    gives. The 64 steps are followed one by one. */
module Md5Example {
  import opened Md5

  /** "abc" */
  const ABC: seq<Byte> := [0x61, 0x62, 0x63]

  /** The words of the one block that "abc" is padded to. */
  function WordOf(k: nat): Word {
    if k == 0 then 0x8063_6261 else if k == 14 then 24 else 0
  }

  ghost predicate IsBlock(x: seq<Word>) {
    |x| == 16 && forall k :: 0 <= k < 16 ==> x[k] == WordOf(k)
  }

  lemma FirstWord() returns (w: Word)
    ensures w == 0x8063_6261 && w as bv32 == 0x8063_6261
  {
    w := 0x8063_6261;
    assert w == (0x8063_6261 as bv32) as Word;
    AsIs(0x8063_6261);
  }

  lemma AsIs(u: bv32)
    ensures u as Word as bv32 == u
  {
  }

  const START := Registers(0x67452301, 0xefcdab89, 0x98badcfe, 0x10325476)

  /** The word that step `k` reads, the constant that it adds and by how many bits it rotates. */
  predicate Takes(k: nat, w: Word, t: bv32, s: Shift)
    requires k < 64
  {
    WordOf(Index(k)) == w && Sine(k) == t && ShiftOf(k) == s
  }

  /** Step `k`, with `f` the value of its auxiliary function. */
  lemma StepIs(k: nat, x: seq<Word>, a: bv32, b: bv32, c: bv32, d: bv32, f: bv32, w: Word, t: bv32, s: Shift, v: bv32)
    requires k < 64 && IsBlock(x) && Takes(k, w, t, s)
    requires Steps(k, START, x) == Registers(a, b, c, d)
    requires Round(k, b, c, d) == f && b + RotateLeft(a + f + w as bv32 + t, s) == v
    ensures Steps(k + 1, START, x) == Registers(d, v, b, c)
  {
    hide Round, Index, Sine, ShiftOf, RotateLeft, WordOf, Written, START;
    WrittenIs(a, b, f, w, s, t);
    assert x[Index(k)] == WordOf(Index(k));
  }

  lemma StepsTo0(x: seq<Word>)
    requires IsBlock(x)
    ensures Steps(0, START, x) == START
  {
  }

  lemma StepsTo8(x: seq<Word>)
    requires IsBlock(x)
    ensures Steps(8, START, x) == Registers(0xc73741ef, 0x928d99f6, 0x207dc67b, 0x8bac3051)
  {
    hide IsBlock, Steps;
    StepsTo0(x);
    var w := FirstWord();
    StepIs(0, x, 0x67452301, 0xefcdab89, 0x98badcfe, 0x10325476, 0x98badcfe, w, 0xd76aa478, 7, 0xd6d117b4);
    StepIs(1, x, 0x10325476, 0xd6d117b4, 0xefcdab89, 0x98badcfe, 0xceebcbca, 0, 0xe8c7b756, 12, 0x344a8432);
    StepIs(2, x, 0x98badcfe, 0x344a8432, 0xd6d117b4, 0xefcdab89, 0xdfc52fb9, 0, 0x242070db, 17, 0x2f6fbd72);
    StepIs(3, x, 0xefcdab89, 0x2f6fbd72, 0x344a8432, 0xd6d117b4, 0xf4da86b6, 0, 0xc1bdceee, 22, 0x7ad956f2);
    StepIs(4, x, 0xd6d117b4, 0x7ad956f2, 0x2f6fbd72, 0x344a8432, 0x2e4b9472, 0, 0xf57c0faf, 7, 0xc73741ef);
    StepIs(5, x, 0x344a8432, 0xc73741ef, 0x7ad956f2, 0x2f6fbd72, 0x6a59fcf2, 0, 0x4787c62a, 12, 0x8bac3051);
    StepIs(6, x, 0x2f6fbd72, 0x8bac3051, 0xc73741ef, 0x7ad956f2, 0xf37546e3, 0, 0xa8304613, 17, 0x207dc67b);
    StepIs(7, x, 0x7ad956f2, 0x207dc67b, 0x8bac3051, 0xc73741ef, 0xc72e01d5, 0, 0xfd469501, 22, 0x928d99f6);
  }

  lemma StepsTo16(x: seq<Word>)
    requires IsBlock(x)
    ensures Steps(16, START, x) == Registers(0xdda9b9a6, 0x72aff2e0, 0xe396856b, 0xa1051895)
  {
    hide IsBlock, Steps;
    StepsTo8(x);
    StepIs(8, x, 0xc73741ef, 0x928d99f6, 0x207dc67b, 0x8bac3051, 0x92da073, 0, 0x698098d8, 7, 0x854b3712);
    StepIs(9, x, 0x8bac3051, 0x854b3712, 0x928d99f6, 0x207dc67b, 0xa03dd17b, 0, 0x8b44f7af, 12, 0x74e2f284);
    StepIs(10, x, 0x207dc67b, 0x74e2f284, 0x854b3712, 0x928d99f6, 0x864f3b72, 0, 0xffff5bb1, 17, 0x3020401c);
    StepIs(11, x, 0x928d99f6, 0x3020401c, 0x74e2f284, 0x854b3712, 0xb56b7706, 0, 0x895cd7be, 22, 0x5ed49596);
    StepIs(12, x, 0x854b3712, 0x5ed49596, 0x3020401c, 0x74e2f284, 0x30226214, 0, 0x6b901122, 7, 0xdda9b9a6);
    StepIs(13, x, 0x74e2f284, 0xdda9b9a6, 0x5ed49596, 0x3020401c, 0x7c80d19e, 0, 0xfd987193, 12, 0xa1051895);
    StepIs(14, x, 0x3020401c, 0xa1051895, 0xdda9b9a6, 0x5ed49596, 0xdfd19d86, 24, 0xa679438e, 17, 0xe396856b);
    StepIs(15, x, 0x5ed49596, 0xe396856b, 0xa1051895, 0xdda9b9a6, 0xbd2d3885, 0, 0x49b40821, 22, 0x72aff2e0);
  }

  lemma StepsTo24(x: seq<Word>)
    requires IsBlock(x)
    ensures Steps(24, START, x) == Registers(0x59a8ffda, 0x47092c07, 0xabfc7920, 0x6d002f1e)
  {
    hide IsBlock, Steps;
    StepsTo16(x);
    var w := FirstWord();
    StepIs(16, x, 0xdda9b9a6, 0x72aff2e0, 0xe396856b, 0xa1051895, 0x629795ea, 0, 0xf61e2562, 5, 0x3e9e9126);
    StepIs(17, x, 0xa1051895, 0x3e9e9126, 0x72aff2e0, 0xe396856b, 0x32bff3a2, 0, 0xc040b340, 9, 0x4a1d804e);
    StepIs(18, x, 0xe396856b, 0x4a1d804e, 0x3e9e9126, 0x72aff2e0, 0x4e1d8146, 0, 0x265e5a51, 14, 0xe25e1652);
    StepIs(19, x, 0x72aff2e0, 0xe25e1652, 0x4a1d804e, 0x3e9e9126, 0x621f104a, w, 0xe9b6c7aa, 20, 0xb5b204e4);
    StepIs(20, x, 0x3e9e9126, 0xb5b204e4, 0xe25e1652, 0x4a1d804e, 0xa0521654, 0, 0xd62f105d, 5, 0x59a8ffda);
    StepIs(21, x, 0x4a1d804e, 0x59a8ffda, 0xb5b204e4, 0xe25e1652, 0x55a816f6, 0, 0x2441453, 9, 0x6d002f1e);
    StepIs(22, x, 0xe25e1652, 0x6d002f1e, 0x59a8ffda, 0xb5b204e4, 0x6d08ff1e, 0, 0xd8a1e681, 14, 0xabfc7920);
    StepIs(23, x, 0xb5b204e4, 0xabfc7920, 0x6d002f1e, 0x59a8ffda, 0x2da87904, 0, 0xe7d3fbc8, 20, 0x47092c07);
  }

  lemma StepsTo32(x: seq<Word>)
    requires IsBlock(x)
    ensures Steps(32, START, x) == Registers(0x790a77fb, 0x726342d3, 0xa62884aa, 0x9f47e4f8)
  {
    hide IsBlock, Steps;
    StepsTo24(x);
    StepIs(24, x, 0x59a8ffda, 0x47092c07, 0xabfc7920, 0x6d002f1e, 0xc7fc7c26, 0, 0x21e1cde6, 5, 0xb7f268cf);
    StepIs(25, x, 0x6d002f1e, 0xb7f268cf, 0x47092c07, 0xabfc7920, 0xe7f16c07, 24, 0xc33707d6, 9, 0x9388eff);
    StepIs(26, x, 0xabfc7920, 0x9388eff, 0xb7f268cf, 0x47092c07, 0xb1fa4ccf, 0, 0xf4d50d87, 14, 0xfe1623b1);
    StepIs(27, x, 0x47092c07, 0xfe1623b1, 0x9388eff, 0xb7f268cf, 0xbe1aa6b1, 0, 0x455a14ed, 20, 0x786acb8f);
    StepIs(28, x, 0xb7f268cf, 0x786acb8f, 0xfe1623b1, 0x9388eff, 0xfe2eab8f, 0, 0xa9e3e905, 5, 0x790a77fb);
    StepIs(29, x, 0x9388eff, 0x790a77fb, 0x786acb8f, 0xfe1623b1, 0x786aebbf, 0, 0xfcefa3f8, 9, 0x9f47e4f8);
    StepIs(30, x, 0xfe1623b1, 0x9f47e4f8, 0x790a77fb, 0x786acb8f, 0x1942f4f8, 0, 0x676f02d9, 14, 0xa62884aa);
    StepIs(31, x, 0x786acb8f, 0xa62884aa, 0x9f47e4f8, 0x790a77fb, 0xa64d84aa, 0, 0x8d2a4c8a, 20, 0x726342d3);
  }

  lemma StepsTo40(x: seq<Word>)
    requires IsBlock(x)
    ensures Steps(40, START, x) == Registers(0x21b117b9, 0x5a2f5ea5, 0x3575227e, 0x6e7429d5)
  {
    hide IsBlock, Steps;
    StepsTo32(x);
    StepIs(32, x, 0x790a77fb, 0x726342d3, 0xa62884aa, 0x9f47e4f8, 0x4b0c2281, 0, 0xfffa3942, 4, 0xb3707ebf);
    StepIs(33, x, 0x9f47e4f8, 0xb3707ebf, 0x726342d3, 0xa62884aa, 0x673bb8c6, 0, 0x8771f681, 11, 0x60127b2e);
    StepIs(34, x, 0xa62884aa, 0x60127b2e, 0xb3707ebf, 0x726342d3, 0xa1014742, 0, 0x6d9d6122, 16, 0x8d212ff5);
    StepIs(35, x, 0x726342d3, 0x8d212ff5, 0x60127b2e, 0xb3707ebf, 0x5e432a64, 24, 0xfde5380c, 23, 0x3b0875c7);
    StepIs(36, x, 0xb3707ebf, 0x3b0875c7, 0x8d212ff5, 0x60127b2e, 0xd63b211c, 0, 0xa4beea44, 4, 0x21b117b9);
    StepIs(37, x, 0x60127b2e, 0x21b117b9, 0x3b0875c7, 0x8d212ff5, 0x97984d8b, 0, 0x4bdecfa9, 11, 0x6e7429d5);
    StepIs(38, x, 0x8d212ff5, 0x6e7429d5, 0x21b117b9, 0x3b0875c7, 0x74cd4bab, 0, 0xf6bb4b60, 16, 0x3575227e);
    StepIs(39, x, 0x3b0875c7, 0x3575227e, 0x6e7429d5, 0x21b117b9, 0x7ab01c12, 0, 0xbebfbc70, 23, 0x5a2f5ea5);
  }

  lemma StepsTo48(x: seq<Word>)
    requires IsBlock(x)
    ensures Steps(48, START, x) == Registers(0x7f2e507b, 0x7beb9700, 0x8fae6399, 0x99d9679d)
  {
    hide IsBlock, Steps;
    StepsTo40(x);
    var w := FirstWord();
    StepIs(40, x, 0x21b117b9, 0x5a2f5ea5, 0x3575227e, 0x6e7429d5, 0x12e550e, 0, 0x289b7ec6, 4, 0x11de1779);
    StepIs(41, x, 0x6e7429d5, 0x11de1779, 0x5a2f5ea5, 0x3575227e, 0x7e846ba2, w, 0xeaa127fa, 11, 0xfadcaa38);
    StepIs(42, x, 0x3575227e, 0xfadcaa38, 0x11de1779, 0x5a2f5ea5, 0xb12de3e4, 0, 0xd4ef3085, 16, 0x31c465ca);
    StepIs(43, x, 0x5a2f5ea5, 0x31c465ca, 0xfadcaa38, 0x11de1779, 0xdac6d88b, 0, 0x4881d05, 23, 0x4c6124f4);
    StepIs(44, x, 0x11de1779, 0x4c6124f4, 0x31c465ca, 0xfadcaa38, 0x8779eb06, 0, 0xd9d4d039, 4, 0x7f2e507b);
    StepIs(45, x, 0xfadcaa38, 0x7f2e507b, 0x4c6124f4, 0x31c465ca, 0x28b1145, 0, 0xe6db99e5, 11, 0x99d9679d);
    StepIs(46, x, 0x31c465ca, 0x99d9679d, 0x7f2e507b, 0x4c6124f4, 0xaa961312, 0, 0x1fa27cf8, 16, 0x8fae6399);
    StepIs(47, x, 0x4c6124f4, 0x8fae6399, 0x99d9679d, 0x7f2e507b, 0x6959547f, 0, 0xc4ac5665, 23, 0x7beb9700);
  }

  lemma StepsTo56(x: seq<Word>)
    requires IsBlock(x)
    ensures Steps(56, START, x) == Registers(0x6cc5e8a, 0x3bfa2c27, 0x7d632dd0, 0x5b0d97aa)
  {
    hide IsBlock, Steps;
    StepsTo48(x);
    var w := FirstWord();
    StepIs(48, x, 0x7f2e507b, 0x7beb9700, 0x8fae6399, 0x99d9679d, 0xf041fcfb, w, 0xf4292244, 6, 0x7b201df8);
    StepIs(49, x, 0x99d9679d, 0x7b201df8, 0x7beb9700, 0x8fae6399, 0x9a0afe, 0, 0x432aff97, 10, 0xf4e8e96e);
    StepIs(50, x, 0x8fae6399, 0xf4e8e96e, 0x7b201df8, 0x7beb9700, 0x8fdcf407, 24, 0xab9423a7, 15, 0xb298cefd);
    StepIs(51, x, 0x7beb9700, 0xb298cefd, 0xf4e8e96e, 0x7b201df8, 0x42370791, 0, 0xfc93a039, 21, 0x8bf025c4);
    StepIs(52, x, 0x7b201df8, 0x8bf025c4, 0xb298cefd, 0xf4e8e96e, 0x396ff928, 0, 0x655b59c3, 6, 0x6cc5e8a);
    StepIs(53, x, 0xf4e8e96e, 0x6cc5e8a, 0x8bf025c4, 0xb298cefd, 0xc41f5a4e, 0, 0x8f0ccc92, 10, 0x5b0d97aa);
    StepIs(54, x, 0xb298cefd, 0x5b0d97aa, 0x6cc5e8a, 0x8bf025c4, 0x79c38131, 0, 0xffeff47d, 15, 0x7d632dd0);
    StepIs(55, x, 0x8bf025c4, 0x7d632dd0, 0x5b0d97aa, 0x6cc5e8a, 0xa67e3a5f, 0, 0x85845dd1, 21, 0x3bfa2c27);
  }

  lemma StepsTo64(x: seq<Word>)
    requires IsBlock(x)
    ensures Steps(64, START, x) == Registers(0x310ade8f, 0xc08226b3, 0xe484b9d8, 0x624d8cb2)
  {
    hide IsBlock, Steps;
    StepsTo56(x);
    StepIs(56, x, 0x6cc5e8a, 0x3bfa2c27, 0x7d632dd0, 0x5b0d97aa, 0xc29941a7, 0, 0x6fa87e4f, 6, 0x7f81cc35);
    StepIs(57, x, 0x5b0d97aa, 0x7f81cc35, 0x3bfa2c27, 0x7d632dd0, 0xc467f218, 0, 0xfe2ce6e0, 10, 0x94454ab);
    StepIs(58, x, 0x7d632dd0, 0x94454ab, 0x7f81cc35, 0x3bfa2c27, 0xb2c41bce, 0, 0xa3014314, 15, 0x4f9dbe3f);
    StepIs(59, x, 0x3bfa2c27, 0x4f9dbe3f, 0x94454ab, 0x7f81cc35, 0xc6bbeb54, 0, 0x4e0811a1, 21, 0x7327d604);
    StepIs(60, x, 0x7f81cc35, 0x7327d604, 0x4f9dbe3f, 0x94454ab, 0xb822416b, 0, 0xf7537e82, 6, 0x310ade8f);
    StepIs(61, x, 0x94454ab, 0x310ade8f, 0x7327d604, 0x4f9dbe3f, 0xc24d09cb, 0, 0xbd3af235, 10, 0x624d8cb2);
    StepIs(62, x, 0x4f9dbe3f, 0x624d8cb2, 0x310ade8f, 0x7327d604, 0xdfd77374, 0, 0x2ad7d2bb, 15, 0xe484b9d8);
    StepIs(63, x, 0x7327d604, 0xe484b9d8, 0x624d8cb2, 0x310ade8f, 0x8cb8354a, 0, 0xeb86d391, 21, 0xc08226b3);
  }

  // ---------------------------------------------------------------- from the message to the registers

  lemma AbcIsPadded()
    ensures Padded(ABC) == [0x61, 0x62, 0x63, 0x80] + Zeros(52) + [24, 0, 0, 0, 0, 0, 0, 0]
  {
    hide Encoded;
    PadLengthIsLeast(3, PaddingBytes(3));
    assert BitCount(3) == [24, 0];
    EncodedSnoc([], 24);
    EncodedSnoc([24], 0);
    Nothing();
    assert [24] + [0] == [24, 0] && [] + [24] == [24];
    assert Bytes(24) == [24, 0, 0, 0] && Bytes(0) == [0, 0, 0, 0];
  }

  lemma AbcIsBlock()
    ensures |Padded(ABC)| == 64 && IsBlock(Decoded(Padded(ABC)))
  {
    hide Padded;
    AbcIsPadded();
    forall k | 0 <= k < 16 ensures WordAt(Padded(ABC), 4 * k) == WordOf(k) {
      assert k == 0 || k == 14 || 4 <= 4 * k < 53 || k == 15;
    }
  }

  lemma StartIsLoaded()
    ensures Loaded(INITIAL) == START
  {
    AsIs(0x67452301);
    AsIs(0xefcdab89);
    AsIs(0x98badcfe);
    AsIs(0x10325476);
    assert INITIAL[0] == (0x67452301 as bv32) as Word && INITIAL[1] == (0xefcdab89 as bv32) as Word;
    assert INITIAL[2] == (0x98badcfe as bv32) as Word && INITIAL[3] == (0x10325476 as bv32) as Word;
  }

  lemma AbcIsHashed()
    ensures Hash(Padded(ABC)) == [0x98500190, 0xb04fd23c, 0x7d3f96d6, 0x727fe128]
  {
    hide Padded, Decoded, IsBlock, Steps, Loaded, Added, Hash, INITIAL, START;
    AbcIsBlock();
    HashSnoc([], Padded(ABC));
    Nothing();
    assert [] + Padded(ABC) == Padded(ABC);
    StartIsLoaded();
    StepsTo64(Decoded(Padded(ABC)));
    AbcIsAdded();
  }

  lemma AbcIsAdded()
    ensures Added(INITIAL, Registers(0x310ade8f, 0xc08226b3, 0xe484b9d8, 0x624d8cb2)) == [0x98500190, 0xb04fd23c, 0x7d3f96d6, 0x727fe128]
  {
  }

  lemma {:induction false} EncodedSum(v: seq<Word>, w: seq<Word>)
    ensures Encoded(v + w) == Encoded(v) + Encoded(w)
  {
    hide Bytes, Encoded;
    if w == [] {
      Nothing();
      assert v + w == v;
    } else {
      var n := |w| - 1;
      EncodedSum(v, w[..n]);
      EncodedSnoc(v + w[..n], w[n]);
      EncodedSnoc(w[..n], w[n]);
      assert v + w == v + w[..n] + [w[n]] && w == w[..n] + [w[n]];
    }
  }

  lemma {:induction false} HexSum(a: seq<Byte>, b: seq<Byte>)
    ensures Hex(a + b) == Hex(a) + Hex(b)
  {
    hide TwoDigits, Hex;
    if b == [] {
      Nothing();
      assert a + b == a;
    } else {
      var n := |b| - 1;
      HexSum(a, b[..n]);
      HexSnoc(a + b[..n], b[n]);
      HexSnoc(b[..n], b[n]);
      assert a + b == a + b[..n] + [b[n]] && b == b[..n] + [b[n]];
    }
  }

  lemma HexOfWord(w: Word, b0: Byte, b1: Byte, b2: Byte, b3: Byte)
    requires Bytes(w) == [b0, b1, b2, b3]
    ensures Hex(Encoded([w])) == TwoDigits(b0) + TwoDigits(b1) + TwoDigits(b2) + TwoDigits(b3)
  {
    hide TwoDigits, Hex, Encoded, Bytes;
    Nothing();
    EncodedSnoc([], w);
    assert [] + [w] == [w] && [] + Bytes(w) == [b0, b1, b2] + [b3];
    HexSnoc([], b0);
    HexSnoc([b0], b1);
    HexSnoc([b0, b1], b2);
    HexSnoc([b0, b1, b2], b3);
    assert [] + [b0] == [b0] && [b0] + [b1] == [b0, b1] && [b0, b1] + [b2] == [b0, b1, b2];
    assert [] + TwoDigits(b0) == TwoDigits(b0);
  }

  lemma FirstWordIsPrinted()
    ensures Hex(Encoded([0x98500190])) == "90015098"
  {
    hide Hex, Encoded;
    HexOfWord(0x98500190, 0x90, 0x01, 0x50, 0x98);
  }

  lemma SecondWordIsPrinted()
    ensures Hex(Encoded([0xb04fd23c])) == "3cd24fb0"
  {
    hide Hex, Encoded;
    HexOfWord(0xb04fd23c, 0x3c, 0xd2, 0x4f, 0xb0);
  }

  lemma ThirdWordIsPrinted()
    ensures Hex(Encoded([0x7d3f96d6])) == "d6963f7d"
  {
    hide Hex, Encoded;
    HexOfWord(0x7d3f96d6, 0xd6, 0x96, 0x3f, 0x7d);
  }

  lemma LastWordIsPrinted()
    ensures Hex(Encoded([0x727fe128])) == "28e17f72"
  {
    hide Hex, Encoded;
    HexOfWord(0x727fe128, 0x28, 0xe1, 0x7f, 0x72);
  }

  lemma OneMoreWord(words: seq<Word>, w: Word)
    ensures Hex(Encoded(words + [w])) == Hex(Encoded(words)) + Hex(Encoded([w]))
  {
    hide Hex, Encoded;
    EncodedSum(words, [w]);
    HexSum(Encoded(words), Encoded([w]));
  }

  /** The digest of "abc", as it is printed. */
  lemma AbcIsDigested()
    ensures Hex(Digest([0x61, 0x62, 0x63])) == "90015098" + "3cd24fb0" + "d6963f7d" + "28e17f72"
  {
    hide Padded, Hash, Encoded, Hex, Digest;
    AbcIsHashed();
    DigestIs(ABC);
    FirstWordIsPrinted();
    SecondWordIsPrinted();
    ThirdWordIsPrinted();
    LastWordIsPrinted();
    OneMoreWord([0x98500190], 0xb04fd23c);
    OneMoreWord([0x98500190, 0xb04fd23c], 0x7d3f96d6);
    OneMoreWord([0x98500190, 0xb04fd23c, 0x7d3f96d6], 0x727fe128);
    assert [0x98500190] + [0xb04fd23c] == [0x98500190, 0xb04fd23c];
    assert [0x98500190, 0xb04fd23c] + [0x7d3f96d6] == [0x98500190, 0xb04fd23c, 0x7d3f96d6];
    assert [0x98500190, 0xb04fd23c, 0x7d3f96d6] + [0x727fe128] == Hash(Padded(ABC));
  }
}
