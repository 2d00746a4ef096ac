/** Boost_Searcher/limonp/include/limonp/Md5.hpp: the streaming message digest of RFC 1321. The context holds the state after
    all full blocks, the bytes of the unfinished block and the number of bits in two 32-bit halves. */
module Md5 {

  const UINT32: nat := 0x1_0000_0000
  const UINT64: nat := 0x1_0000_0000_0000_0000

  type Byte = b: nat | b < 0x100
  type Word = w: nat | w < 0x1_0000_0000
  type State = s: seq<Word> | |s| == 4 witness [0, 0, 0, 0]

  // ---------------------------------------------------------------- words and bytes

  /** A word as four bytes, low byte first. */
  function Bytes(w: Word): (r: seq<Byte>)
    ensures |r| == 4
  {
    [w % 0x100, w / 0x100 % 0x100, w / 0x1_0000 % 0x100, w / 0x100_0000]
  }

  /** The four shifted bytes share no bit, so adding them is or-ing them. */
  function WordAt(bytes: seq<Byte>, j: nat): (w: Word)
    requires j + 4 <= |bytes|
  {
    bytes[j] as nat + bytes[j + 1] as nat * 0x100 + bytes[j + 2] as nat * 0x1_0000 + bytes[j + 3] as nat * 0x100_0000
  }

  function Encoded(words: seq<Word>): (r: seq<Byte>)
    ensures |r| == 4 * |words|
  {
    if words == [] then [] else Encoded(words[..|words| - 1]) + Bytes(words[|words| - 1])
  }

  function Decoded(bytes: seq<Byte>): (r: seq<Word>)
    requires |bytes| % 4 == 0
    ensures |r| == |bytes| / 4
  {
    seq(|bytes| / 4, i requires 0 <= i < |bytes| / 4 => WordAt(bytes, 4 * i))
  }

  lemma {:induction false} EncodedAt(words: seq<Word>, i: nat)
    requires i < |words|
    ensures Encoded(words)[4 * i..4 * i + 4] == Bytes(words[i])
  {
    var n := |words| - 1;
    if i < n {
      EncodedAt(words[..n], i);
      assert Encoded(words)[4 * i..4 * i + 4] == Encoded(words[..n])[4 * i..4 * i + 4];
    }
  }

  lemma WordOfBytes(w: Word)
    ensures WordAt(Bytes(w), 0) == w
  {
    assert w / 0x1_0000 == w / 0x100 / 0x100 && w / 0x100_0000 == w / 0x1_0000 / 0x100;
  }

  lemma BytesOfWord(bytes: seq<Byte>, j: nat)
    requires j + 4 <= |bytes|
    ensures Bytes(WordAt(bytes, j)) == bytes[j..j + 4]
  {
    var w3: nat := bytes[j + 3];
    var w2, w1, w := w3 * 0x100 + bytes[j + 2], 0, 0;
    w1 := w2 * 0x100 + bytes[j + 1];
    w := w1 * 0x100 + bytes[j];
    assert w == WordAt(bytes, j);
    Shifted(w2, w3, bytes[j + 2]);
    Shifted(w1, w2, bytes[j + 1]);
    Shifted(w, w1, bytes[j]);
    DivideTwice(w);
    hide WordAt;
    assert Bytes(w) == [bytes[j], bytes[j + 1], bytes[j + 2], bytes[j + 3]];
  }

  lemma Shifted(w: nat, high: nat, low: Byte)
    requires w == high * 0x100 + low
    ensures w / 0x100 == high && w % 0x100 == low
  {
  }

  lemma DivideTwice(w: nat)
    ensures w / 0x1_0000 == w / 0x100 / 0x100 && w / 0x100_0000 == w / 0x100 / 0x100 / 0x100
  {
  }

  /** Decoding undoes encoding. */
  lemma DecodeEncode(words: seq<Word>)
    ensures Decoded(Encoded(words)) == words
  {
    hide Encoded, Bytes;
    forall i | 0 <= i < |words| ensures WordAt(Encoded(words), 4 * i) == words[i] {
      EncodedAt(words, i);
      WordOfBytes(words[i]);
      var four := Encoded(words)[4 * i..4 * i + 4];
      assert four[0] == Encoded(words)[4 * i] && four[1] == Encoded(words)[4 * i + 1];
      assert four[2] == Encoded(words)[4 * i + 2] && four[3] == Encoded(words)[4 * i + 3];
    }
  }

  /** Encoding undoes decoding. */
  lemma {:induction false} EncodeDecode(bytes: seq<Byte>)
    requires |bytes| % 4 == 0
    ensures Encoded(Decoded(bytes)) == bytes
    decreases |bytes|
  {
    hide Bytes, WordAt;
    if bytes != [] {
      var n := |bytes| - 4;
      EncodeDecode(bytes[..n]);
      DecodedPrefix(bytes);
      var words := Decoded(bytes);
      BytesOfWord(bytes, n);
      assert bytes == bytes[..n] + bytes[n..n + 4];
    }
  }

  lemma DecodedPrefix(bytes: seq<Byte>)
    requires |bytes| % 4 == 0 && bytes != []
    ensures Decoded(bytes)[..|bytes| / 4 - 1] == Decoded(bytes[..|bytes| - 4])
    ensures Decoded(bytes)[|bytes| / 4 - 1] == WordAt(bytes, |bytes| - 4)
  {
    assert 4 * (|bytes| / 4 - 1) == |bytes| - 4;
  }

  /** `Encode`: fills `output` from the words of `input`. */
  method Encode(output: array<Byte>, input: array<Word>)
    requires output.Length == 4 * input.Length && output as object != input as object
    modifies output
    ensures output[..] == Encoded(input[..])
  {
    hide Encoded;
    Nothing();
    assert input[..0] == [];
    var i, j := 0, 0;
    while j < output.Length
      invariant j == 4 * i <= output.Length
      invariant output[..j] == Encoded(input[..i])
    {
      var w := input[i];
      output[j], output[j + 1], output[j + 2], output[j + 3] :=
        w % 0x100, w / 0x100 % 0x100, w / 0x1_0000 % 0x100, w / 0x100_0000;
      assert output[..j + 4] == output[..j] + Bytes(w);
      EncodedSnoc(input[..i], w);
      assert input[..i + 1] == input[..i] + [w];
      i, j := i + 1, j + 4;
    }
    assert input[..i] == input[..] && output[..j] == output[..];
  }

  lemma EncodedSnoc(words: seq<Word>, w: Word)
    ensures Encoded(words + [w]) == Encoded(words) + Bytes(w)
  {
    assert (words + [w])[..|words|] == words;
  }

  /** `Decode`: fills `output` from the bytes of `input`. */
  method Decode(output: array<Word>, input: seq<Byte>)
    requires |input| == 4 * output.Length
    modifies output
    ensures output[..] == Decoded(input)
  {
    var i, j := 0, 0;
    while j < |input|
      invariant j == 4 * i <= |input|
      invariant forall k :: 0 <= k < i ==> output[k] == WordAt(input, 4 * k)
    {
      output[i] := WordAt(input, j);
      i, j := i + 1, j + 4;
    }
  }

  // ---------------------------------------------------------------- the transform

  datatype Registers = Registers(a: bv32, b: bv32, c: bv32, d: bv32)

  /** The boolean function of step `k`: `F`, `G`, `H` or `I`. */
  function Round(k: nat, x: bv32, y: bv32, z: bv32): bv32 {
    if k < 16 then (x & y) | (!x & z)
    else if k < 32 then (x & z) | (y & !z)
    else if k < 48 then x ^ y ^ z
    else y ^ (x | !z)
  }

  /** The word that step `k` reads. */
  function Index(k: nat): (i: nat)
    ensures i < 16
  {
    if k < 16 then k else if k < 32 then (5 * k + 1) % 16 else if k < 48 then (3 * k + 5) % 16 else 7 * k % 16
  }

  type Shift = s: nat | s <= 32

  /** By how many bits step `k` rotates. */
  function ShiftOf(k: nat): Shift {
    if k < 16 then [7, 12, 17, 22][k % 4]
    else if k < 32 then [5, 9, 14, 20][k % 4]
    else if k < 48 then [4, 11, 16, 23][k % 4]
    else [6, 10, 15, 21][k % 4]
  }

  function RotateLeft(x: bv32, s: Shift): bv32 {
    (x << s) | (x >> (32 - s))
  }

  /** The constant that step `k` adds. */
  function Sine(k: nat): bv32 {
    if k < 16 then Sine1(k) else if k < 32 then Sine2(k - 16) else if k < 48 then Sine3(k - 32) else Sine4(k - 48)
  }

  function Sine1(k: nat): bv32 {
    match k
    case 0 => 0xd76aa478 case 1 => 0xe8c7b756 case 2 => 0x242070db case 3 => 0xc1bdceee
    case 4 => 0xf57c0faf case 5 => 0x4787c62a case 6 => 0xa8304613 case 7 => 0xfd469501
    case 8 => 0x698098d8 case 9 => 0x8b44f7af case 10 => 0xffff5bb1 case 11 => 0x895cd7be
    case 12 => 0x6b901122 case 13 => 0xfd987193 case 14 => 0xa679438e case _ => 0x49b40821
  }

  function Sine2(k: nat): bv32 {
    match k
    case 0 => 0xf61e2562 case 1 => 0xc040b340 case 2 => 0x265e5a51 case 3 => 0xe9b6c7aa
    case 4 => 0xd62f105d case 5 => 0x2441453 case 6 => 0xd8a1e681 case 7 => 0xe7d3fbc8
    case 8 => 0x21e1cde6 case 9 => 0xc33707d6 case 10 => 0xf4d50d87 case 11 => 0x455a14ed
    case 12 => 0xa9e3e905 case 13 => 0xfcefa3f8 case 14 => 0x676f02d9 case _ => 0x8d2a4c8a
  }

  function Sine3(k: nat): bv32 {
    match k
    case 0 => 0xfffa3942 case 1 => 0x8771f681 case 2 => 0x6d9d6122 case 3 => 0xfde5380c
    case 4 => 0xa4beea44 case 5 => 0x4bdecfa9 case 6 => 0xf6bb4b60 case 7 => 0xbebfbc70
    case 8 => 0x289b7ec6 case 9 => 0xeaa127fa case 10 => 0xd4ef3085 case 11 => 0x4881d05
    case 12 => 0xd9d4d039 case 13 => 0xe6db99e5 case 14 => 0x1fa27cf8 case _ => 0xc4ac5665
  }

  function Sine4(k: nat): bv32 {
    match k
    case 0 => 0xf4292244 case 1 => 0x432aff97 case 2 => 0xab9423a7 case 3 => 0xfc93a039
    case 4 => 0x655b59c3 case 5 => 0x8f0ccc92 case 6 => 0xffeff47d case 7 => 0x85845dd1
    case 8 => 0x6fa87e4f case 9 => 0xfe2ce6e0 case 10 => 0xa3014314 case 11 => 0x4e0811a1
    case 12 => 0xf7537e82 case 13 => 0xbd3af235 case 14 => 0x2ad7d2bb case _ => 0xeb86d391
  }

  /** What the macros `FF`, `GG`, `HH` and `II` leave in register `a`. */
  function Written(a: bv32, b: bv32, f: bv32, w: Word, s: Shift, t: bv32): bv32 {
    b + RotateLeft(a + f + w as bv32 + t, s)
  }

  /** `b + ((a + f + w + t) <<< s)`, as section 3.4 of RFC 1321 writes it. */
  lemma WrittenIs(a: bv32, b: bv32, f: bv32, w: Word, s: Shift, t: bv32)
    ensures Written(a, b, f, w, s, t) == b + RotateLeft(a + f + w as bv32 + t, s)
  {
    hide RotateLeft;
  }

  /** Step `k`; the registers then take turns, so that the next step updates what was `d`. */
  function Step(k: nat, r: Registers, x: seq<Word>): Registers
    requires k < 64 && |x| == 16
  {
    Registers(r.d, Written(r.a, r.b, Round(k, r.b, r.c, r.d), x[Index(k)], ShiftOf(k), Sine(k)), r.b, r.c)
  }

  /** The registers after the first `k` steps. */
  function Steps(k: nat, r: Registers, x: seq<Word>): Registers
    requires k <= 64 && |x| == 16
  {
    if k == 0 then r else Step(k - 1, Steps(k - 1, r, x), x)
  }

  function Loaded(state: State): Registers {
    Registers(state[0] as bv32, state[1] as bv32, state[2] as bv32, state[3] as bv32)
  }

  /** 32-bit addition. */
  function Plus(a: nat, b: nat): Word {
    (a + b) % UINT32
  }

  function Sum(w: Word, x: bv32): Word {
    Plus(w, x as nat)
  }

  function Added(state: State, r: Registers): State {
    [Sum(state[0], r.a), Sum(state[1], r.b), Sum(state[2], r.c), Sum(state[3], r.d)]
  }

  function Transform(state: State, block: seq<Byte>): State
    requires |block| == 64
  {
    Added(state, Steps(64, Loaded(state), Decoded(block)))
  }

  // ---------------------------------------------------------------- the digest of a message

  const INITIAL: State := [0x67452301, 0xefcdab89, 0x98badcfe, 0x10325476]

  /** The state after all blocks of a message. */
  function Hash(blocks: seq<Byte>): State
    requires |blocks| % 64 == 0
  {
    if blocks == [] then INITIAL
    else Transform(Hash(blocks[..|blocks| - 64]), blocks[|blocks| - 64..])
  }

  function Zeros(n: nat): (r: seq<Byte>)
    ensures |r| == n
  {
    seq(n, _ => 0)
  }

  /** `n` bytes more bring a message to 56 modulo 64. */
  predicate Congruent(length: nat, n: nat) {
    (length + n) % 64 == 56
  }

  /** The least number of bytes, from `n` on, that brings a message to 56 modulo 64. */
  function PaddingFrom(length: nat, n: nat): (r: nat)
    ensures n <= r && Congruent(length, r)
    ensures forall k :: n <= k < r ==> !Congruent(length, k)
    decreases (56 - length - n) % 64
  {
    if Congruent(length, n) then n
    else
      OneLess(56 - length - n);
      PaddingFrom(length, n + 1)
  }

  lemma OneLess(x: int)
    requires x % 64 != 0
    ensures (x - 1) % 64 == x % 64 - 1
  {
  }

  /** How many bytes step 1 appends: padding is always performed, so at least one. */
  function PaddingBytes(length: nat): (r: nat)
    ensures 1 <= r <= 64 && Congruent(length, r)
    ensures forall k :: 1 <= k < r ==> !Congruent(length, k)
  {
    var r := PaddingFrom(length, 1);
    PadLengthIsLeast(length, r);
    r
  }

  /** The source's formula for it, from the bytes in the buffer. */
  function PadLength(index: nat): nat
    requires index < 64
  {
    if index < 56 then 56 - index else 120 - index
  }

  /** The formula gives the least positive number of bytes that brings the message to 56 modulo 64. */
  lemma PadLengthIsLeast(length: nat, r: nat)
    requires 1 <= r && Congruent(length, r)
    requires forall k :: 1 <= k < r ==> !Congruent(length, k)
    ensures r == PadLength(length % 64) && 1 <= r <= 64
  {
    PadLengthFits(length, length % 64, r);
  }

  lemma PadLengthFits(length: nat, index: nat, n: nat)
    requires index == length % 64
    ensures Congruent(length, PadLength(index))
    ensures 1 <= n < PadLength(index) ==> !Congruent(length, n)
  {
    var q := length / 64;
    assert length == 64 * q + index;
    assert (length + PadLength(index)) == 64 * (q + if index < 56 then 0 else 1) + 56;
    assert 1 <= n < PadLength(index) ==> length + n == 64 * q + (index + n) && index + n != 56 && index + n < 120;
  }

  /** The bit count modulo 2^64 in two words, low word first. */
  function BitCount(length: nat): (ws: seq<Word>)
    ensures |ws| == 2
  {
    [8 * length % UINT32, 8 * length / UINT32 % UINT32]
  }

  /** The message with steps 1 and 2 of sections 3.1 and 3.2 of RFC 1321. */
  function Padded(message: seq<Byte>): (r: seq<Byte>)
    ensures |r| % 64 == 0
  {
    var n := PaddingBytes(|message|);
    LengthFillsBlock(|message|, n);
    message + [0x80] + Zeros(n - 1) + Encoded(BitCount(|message|))
  }

  lemma LengthFillsBlock(length: nat, n: nat)
    requires Congruent(length, n)
    ensures (length + n + 8) % 64 == 0
  {
  }

  function Digest(message: seq<Byte>): (r: seq<Byte>)
    ensures |r| == 16
  {
    Encoded(Hash(Padded(message)))
  }

  lemma HashSnoc(blocks: seq<Byte>, block: seq<Byte>)
    requires |blocks| % 64 == 0 && |block| == 64
    ensures Hash(blocks + block) == Transform(Hash(blocks), block)
  {
    hide Transform;
    var all := blocks + block;
    assert all[..|all| - 64] == blocks && all[|all| - 64..] == block;
  }

  /** Of nothing, every function gives nothing. */
  lemma Nothing()
    ensures Encoded([]) == [] && Hash([]) == INITIAL && Hex([]) == "" && Flatten([]) == [] && BitCount(0) == [0, 0]
  {
  }

  /** The padding of a message below 2^64 bits tells the message: no two messages share it. */
  lemma PaddingIsInjective(a: seq<Byte>, b: seq<Byte>)
    requires 8 * |a| < UINT64 && 8 * |b| < UINT64
    requires Padded(a) == Padded(b)
    ensures a == b
  {
    var p, q := Encoded(BitCount(|a|)), Encoded(BitCount(|b|));
    var n := |Padded(a)| - 8;
    assert Padded(a)[n..] == p && Padded(b)[n..] == q;
    DecodeEncode(BitCount(|a|));
    DecodeEncode(BitCount(|b|));
    CountTellsLength(|a|);
    CountTellsLength(|b|);
    assert Padded(a)[..|a|] == a && Padded(b)[..|b|] == b;
  }

  lemma CountTellsLength(length: nat)
    requires 8 * length < UINT64
    ensures BitCount(length)[0] + UINT32 * BitCount(length)[1] == 8 * length
  {
  }

  // ---------------------------------------------------------------- counting bits

  /** `length << 3` in 32 bits. */
  function LowBits(length: nat): Word {
    8 * length % UINT32
  }

  /** Adding a chunk to the two halves of the bit count, with the carry out of the low half, counts exactly its bits. */
  lemma CarryIsExact(total: nat, length: nat, low: Word, high: Word)
    requires length < UINT32 && BitCount(total) == [low, high]
    ensures var sum := Plus(low, LowBits(length));
            var carried := if sum < LowBits(length) then Plus(high, 1) else high;
            BitCount(total + length) == [sum, Plus(carried, length / 0x2000_0000)]
  {
    var t, q := length / 0x2000_0000, 8 * total / UINT32;
    var sum := Plus(low, LowBits(length));
    var carry := if sum < LowBits(length) then 1 else 0;
    CountDivided(total);
    LengthDivided(length);
    PlusWraps(low, LowBits(length));
    hide *;
    CountIs(total + length, q + t + carry, sum);
    PlusPlus(q, carry, t);
  }

  lemma CountDivided(total: nat)
    ensures BitCount(total)[1] == Plus(8 * total / UINT32, 0)
    ensures 8 * total == UINT32 * (8 * total / UINT32) + BitCount(total)[0]
  {
  }

  lemma LengthDivided(length: nat)
    ensures 8 * length == UINT32 * (length / 0x2000_0000) + LowBits(length)
  {
    var t, r := length / 0x2000_0000, length % 0x2000_0000;
    Divided(8 * length, t, 8 * r);
  }

  lemma PlusWraps(a: Word, b: Word)
    ensures a + b == Plus(a, b) + UINT32 * (if Plus(a, b) < b then 1 else 0)
  {
  }

  lemma CountIs(total: nat, q: nat, r: nat)
    requires 8 * total == UINT32 * q + r && r < UINT32
    ensures BitCount(total) == [r, Plus(q, 0)]
  {
    Divided(8 * total, q, r);
  }

  lemma Divided(x: nat, q: nat, r: nat)
    requires x == UINT32 * q + r && r < UINT32
    ensures x / UINT32 == q && x % UINT32 == r
  {
  }

  lemma PlusPlus(a: nat, b: nat, c: nat)
    ensures Plus(Plus(Plus(a, 0), b), c) == Plus(a + b + c, 0)
    ensures Plus(Plus(a, 0), c) == Plus(a + c, 0)
  {
    PlusReduces(a, b);
    PlusReduces(a + b, c);
    PlusReduces(a, c);
    hide *;
  }

  lemma PlusReduces(a: nat, b: nat)
    ensures Plus(Plus(a, 0), b) == Plus(a, b) == Plus(a + b, 0)
  {
    var s, q := a + b, a / UINT32;
    assert a == UINT32 * q + a % UINT32 && s == UINT32 * (s / UINT32) + s % UINT32;
    Divided(a % UINT32 + b, s / UINT32 - q, s % UINT32);
  }

  lemma CountTellsIndex(total: nat)
    ensures BitCount(total)[0] / 8 % 64 == total % 64
  {
    var t, r := total / 0x2000_0000, total % 0x2000_0000;
    assert total == 0x2000_0000 * t + r;
    Divided(8 * total, t, 8 * r);
    Eighth(r);
    SixtyFourths(0x80_0000 * t, r);
  }

  lemma Eighth(x: nat)
    ensures 8 * x / 8 == x
  {
  }

  lemma SixtyFourths(k: nat, r: nat)
    ensures (64 * k + r) % 64 == r % 64
  {
  }

  // ---------------------------------------------------------------- where blocks start in a chunk

  /** A chunk of `length` bytes, after `index` bytes in the buffer, may have a block start at `i`. */
  ghost predicate BlockStart(index: nat, length: nat, i: nat) {
    64 - index <= i <= length && (index + i) % 64 == 0
  }

  /** The last block start is low enough for `i + 63` not to wrap around; every chunk of at most 2^32 - 64 bytes fits. */
  predicate Fits(index: nat, length: nat) {
    length - (index + length) % 64 <= UINT32 - 64
  }

  /** The loop guard `i + 63 < inputLen` of `Update`, in 32-bit arithmetic. */
  predicate Goes(i: nat, length: nat) {
    (i + 63) % UINT32 < length
  }

  lemma FitsBelow(index: nat, length: nat, i: nat)
    requires index < 64 && length < UINT32 && Fits(index, length) && BlockStart(index, length, i)
    ensures Goes(i, length) <==> i + 64 <= length
  {
    var left := length - i;
    assert (index + length) % 64 == left % 64 <= left;
  }

  /** The guard is right at every block start exactly if the chunk fits; otherwise the loop runs past the end of the chunk. */
  lemma GuardIsExact(index: nat, length: nat)
    requires index < 64 && length < UINT32
    ensures Fits(index, length) <==> forall i: nat | BlockStart(index, length, i) :: Goes(i, length) ==> i + 64 <= length
  {
    if Fits(index, length) {
      forall i: nat | BlockStart(index, length, i) ensures Goes(i, length) ==> i + 64 <= length {
        FitsBelow(index, length, i);
      }
    } else {
      var last := length - (index + length) % 64;
      assert BlockStart(index, length, last);
      assert last + 63 >= UINT32 && last + 63 - UINT32 < 64;
      assert Goes(last, length);
    }
  }

  /** A chunk one byte short of 2^32, with 63 bytes in the buffer: at the last block start `i + 63` wraps around to 0,
      and the loop goes on although not even 64 bytes are left. */
  lemma LongChunkRunsPastTheEnd()
    ensures !Fits(63, UINT32 - 1)
    ensures var i := UINT32 - 63; BlockStart(63, UINT32 - 1, i) && Goes(i, UINT32 - 1) && i + 64 > UINT32 - 1
  {
    assert (63 + (UINT32 - 1)) % 64 == 62;
  }

  lemma SmallFits(index: nat, length: nat)
    requires length <= UINT32 - 64
    ensures Fits(index, length)
  {
  }

  /** With an empty buffer every chunk fits. */
  lemma EmptyBufferFits(length: nat)
    requires length < UINT32
    ensures Fits(0, length)
  {
    assert length - length % 64 == 64 * (length / 64);
  }

  lemma Remainder(full: nat, rest: nat)
    requires full % 64 == 0 && rest < 64
    ensures (full + rest) % 64 == rest
  {
  }

  // ---------------------------------------------------------------- printing

  function Digit(n: nat): char
    requires n < 16
  {
    if n < 10 then '0' + n as char else 'a' + (n - 10) as char
  }

  function Value(c: char): nat {
    if '0' <= c <= '9' then (c - '0') as nat else if 'a' <= c <= 'f' then (c - 'a') as nat + 10 else 0
  }

  /** Two lower-case hexadecimal digits for each byte. */
  function Hex(bytes: seq<Byte>): (r: string)
    ensures |r| == 2 * |bytes|
  {
    if bytes == [] then [] else Hex(bytes[..|bytes| - 1]) + TwoDigits(bytes[|bytes| - 1])
  }

  function TwoDigits(b: Byte): (r: string)
    ensures |r| == 2
  {
    [Digit(b / 16), Digit(b % 16)]
  }

  function Unhex(text: string): seq<nat> {
    if |text| < 2 then [] else Unhex(text[..|text| - 2]) + [16 * Value(text[|text| - 2]) + Value(text[|text| - 1])]
  }

  /** The printed digest tells the digest. */
  lemma {:induction false} HexRoundTrip(bytes: seq<Byte>)
    ensures Unhex(Hex(bytes)) == bytes
  {
    hide *;
    if bytes == [] {
      UnhexNothing();
    } else {
      var n := |bytes| - 1;
      HexRoundTrip(bytes[..n]);
      assert bytes == bytes[..n] + [bytes[n]];
      RoundTripSnoc(bytes[..n], bytes[n]);
    }
  }

  lemma UnhexNothing()
    ensures Unhex(Hex([])) == []
  {
  }

  lemma RoundTripSnoc(bytes: seq<Byte>, b: Byte)
    requires Unhex(Hex(bytes)) == bytes
    ensures Unhex(Hex(bytes + [b])) == bytes + [b]
  {
    hide *;
    HexSnoc(bytes, b);
    UnhexSnoc(Hex(bytes), TwoDigits(b));
    DigitsValue(b);
  }

  lemma UnhexSnoc(text: string, two: string)
    requires |two| == 2
    ensures Unhex(text + two) == Unhex(text) + [16 * Value(two[0]) + Value(two[1])]
  {
    assert (text + two)[..|text|] == text;
  }

  lemma HexSnoc(bytes: seq<Byte>, b: Byte)
    ensures Hex(bytes + [b]) == Hex(bytes) + TwoDigits(b)
  {
    assert (bytes + [b])[..|bytes|] == bytes;
  }

  lemma DigitsValue(b: Byte)
    ensures 16 * Value(TwoDigits(b)[0]) + Value(TwoDigits(b)[1]) == b
  {
  }

  // ---------------------------------------------------------------- the class

  function Flatten(chunks: seq<seq<Byte>>): seq<Byte> {
    if chunks == [] then [] else Flatten(chunks[..|chunks| - 1]) + chunks[|chunks| - 1]
  }

  lemma FlattenSnoc(chunks: seq<seq<Byte>>, chunk: seq<Byte>)
    ensures Flatten(chunks + [chunk]) == Flatten(chunks) + chunk
  {
    assert (chunks + [chunk])[..|chunks|] == chunks;
  }

  const PADDING: seq<Byte> := [0x80] + Zeros(63)

  /** `MD5Transform`: the block is decoded into a scratch array, which is wiped afterwards. */
  method MD5Transform(state: array<Word>, block: seq<Byte>)
    requires state.Length == 4 && |block| == 64
    modifies state
    ensures state[..] == Transform(old(state[..]), block)
  {
    hide Loaded, Steps, Added, Decoded;
    var x := new Word[16];
    Decode(x, block);
    var sum := Added(state[..], Steps(64, Loaded(state[..]), x[..]));
    state[0], state[1], state[2], state[3] := sum[0], sum[1], sum[2], sum[3];
    forall k | 0 <= k < 16 { x[k] := 0; }
  }

  /** What `Final` feeds is the padding. */
  lemma PaddedIs(message: seq<Byte>, index: nat)
    requires index == |message| % 64
    ensures message + PADDING[..PadLength(index)] + Encoded(BitCount(|message|)) == Padded(message)
  {
    PadLengthIsLeast(|message|, PaddingBytes(|message|));
    hide Encoded, BitCount, PadLength, PaddingBytes;
    assert PADDING[..PadLength(index)] == [0x80] + Zeros(PadLength(index) - 1);
  }

  lemma DigestIs(message: seq<Byte>)
    ensures Digest(message) == Encoded(Hash(Padded(message)))
  {
    hide Hash, Padded, Encoded;
  }

  /** How many bytes of a message are in full blocks. */
  function InBlocks(length: nat): (r: nat)
    ensures r <= length && r % 64 == 0 && length - r == length % 64
  {
    length / 64 * 64
  }

  /** What a context has to hold after the bytes `fed`, however they were split into chunks. */
  ghost predicate ContextOf(fed: seq<Byte>, state: State, count: seq<Word>, buffer: seq<Byte>)
    requires |buffer| == 64
  {
    && count == BitCount(|fed|)
    && var full := InBlocks(|fed|);
       state == Hash(fed[..full]) && buffer[..|fed| - full] == fed[full..]
  }

  lemma EmptyContext(buffer: seq<Byte>)
    requires |buffer| == 64
    ensures ContextOf([], INITIAL, [0, 0], buffer)
  {
    hide Hash, BitCount;
    Nothing();
  }

  /** The context of bytes that end `rest` bytes behind a block boundary. */
  lemma ContextBehind(fed: seq<Byte>, full: nat, rest: nat, state: State, count: seq<Word>, buffer: seq<Byte>)
    requires |buffer| == 64 && full + rest == |fed| && full % 64 == 0 && rest < 64
    ensures ContextOf(fed, state, count, buffer) <==>
            count == BitCount(|fed|) && state == Hash(fed[..full]) && buffer[..rest] == fed[full..]
    ensures |fed| % 64 == rest
  {
    hide Hash, BitCount, InBlocks;
    Remainder(full, rest);
    assert InBlocks(|fed|) == full;
  }

  /** The number of waiting bytes can be read off the bit count. */
  lemma ContextIndex(fed: seq<Byte>, state: State, count: seq<Word>, buffer: seq<Byte>)
    requires |buffer| == 64 && ContextOf(fed, state, count, buffer)
    ensures |count| == 2 && count[0] / 8 % 64 == |fed| % 64
  {
    hide Hash, BitCount;
    CountTellsIndex(|fed|);
  }

  lemma BlockBoundary(length: nat)
    ensures length % 64 < 64 && length % 64 <= length && (length - length % 64) % 64 == 0
  {
  }

  /** The bytes that a length cut to 32 bits leaves. */
  function Prefix32(text: seq<Byte>): (r: seq<Byte>)
    ensures |r| < UINT32 && |r| == |text| % UINT32 && r <= text
  {
    ModBelow(|text|);
    text[..|text| % UINT32]
  }

  lemma ModBelow(x: nat)
    ensures x % UINT32 <= x
  {
  }

  class MD5 {
    const state: array<Word>
    const count: array<Word>
    const buffer: array<Byte>
    const digestRaw: array<Byte>
    var digestChars: string
    /** Everything given to `Update` since `Init`. */
    ghost var fed: seq<Byte>

    ghost predicate Shape() {
      && state.Length == 4 && count.Length == 2 && buffer.Length == 64 && digestRaw.Length == 16
      && state != count && buffer != digestRaw
    }

    ghost predicate Valid()
      reads this, state, count, buffer
    {
      Shape() && ContextOf(fed, state[..], count[..], buffer[..])
    }

    constructor ()
      ensures Valid() && fed == [] && fresh(state) && fresh(count) && fresh(buffer) && fresh(digestRaw)
    {
      state, count := new Word[4], new Word[2];
      buffer, digestRaw := new Byte[64], new Byte[16];
      digestChars := "";
      fed := [];
      new;
      Init();
    }

    method Init()
      requires Shape()
      modifies this`fed, state, count
      ensures Valid() && fed == []
    {
      hide ContextOf;
      count[0], count[1] := 0, 0;
      state[0], state[1], state[2], state[3] := 0x67452301, 0xefcdab89, 0x98badcfe, 0x10325476;
      fed := [];
      EmptyContext(buffer[..]);
      assert state[..] == INITIAL && count[..] == [0, 0];
    }

    /** `memcpy` into the buffer. */
    method Fill(index: nat, bytes: seq<Byte>)
      requires index + |bytes| <= buffer.Length
      modifies buffer
      ensures buffer[..index + |bytes|] == old(buffer[..index]) + bytes
    {
      forall k | 0 <= k < |bytes| { buffer[index + k] := bytes[k]; }
    }

    method CountBits(length: nat, ghost total: nat)
      requires Shape() && length < UINT32 && count[..] == BitCount(total)
      modifies count
      ensures count[..] == BitCount(total + length)
    {
      CarryIsExact(total, length, count[0], count[1]);
      hide *;
      count[0] := Plus(count[0], LowBits(length));
      if count[0] < LowBits(length) {
        count[1] := Plus(count[1], 1);
      }
      count[1] := Plus(count[1], length / 0x2000_0000);
    }

    /** Transforms as many blocks as possible, so that the first `full` bytes are done. What is left starts with `left`
        bytes of the buffer and goes on with `input[i..]`. */
    method Blocks(ghost done: nat, index: nat, input: seq<Byte>) returns (i: nat, left: nat, ghost full: nat)
      requires Shape() && done % 64 == 0 && done + index == |fed| && index < 64
      requires |input| < UINT32 && Fits(index, |input|)
      requires state[..] == Hash(fed[..done]) && buffer[..index] == fed[done..]
      modifies state, buffer
      ensures i <= |input| && full % 64 == 0 && full + left == |fed| + i && left + |input| - i < 64
      ensures state[..] == Hash((fed + input)[..full])
      ensures buffer[..left] == (fed + input)[full..|fed| + i]
    {
      hide Hash, Transform, BitCount, Fits, Goes, Encoded, Decoded, Padded, Digest, Hex, Flatten, Steps, Loaded, Added;
      var partLen := 64 - index;
      i, left, full := 0, index, done;
      if |input| >= partLen {
        Fill(index, input[..partLen]);
        assert (fed + input)[..done + 64] == fed[..done] + buffer[..];
        HashSnoc(fed[..done], buffer[..]);
        MD5Transform(state, buffer[..]);
        i, full := partLen, done + 64;
        while Goes(i, |input|)
          invariant BlockStart(index, |input|, i) && full % 64 == 0 && full == |fed| + i
          invariant state[..] == Hash((fed + input)[..full])
          decreases |input| - i
        {
          FitsBelow(index, |input|, i);
          MD5Transform(state, input[i..i + 64]);
          HashSnoc((fed + input)[..full], input[i..i + 64]);
          assert (fed + input)[..full + 64] == (fed + input)[..full] + input[i..i + 64];
          i, full := i + 64, full + 64;
        }
        FitsBelow(index, |input|, i);
        left := 0;
      } else {
        assert (fed + input)[..done] == fed[..done];
      }
    }

    /** How many bytes wait in the buffer, read off the bit count. */
    method BufferIndex() returns (index: nat)
      requires Valid()
      ensures index == |fed| % 64
    {
      hide ContextOf;
      ContextIndex(fed, state[..], count[..], buffer[..]);
      index := count[0] / 8 % 64;
    }

    method Update(input: seq<Byte>)
      requires Valid() && |input| < UINT32 && Fits(|fed| % 64, |input|)
      modifies this`fed, state, count, buffer
      ensures Valid() && fed == old(fed) + input
    {
      hide ContextOf, Hash, BitCount, Fits;
      BlockBoundary(|fed|);
      var index := BufferIndex();
      ghost var done := |fed| - index;
      ContextBehind(fed, done, index, state[..], count[..], buffer[..]);
      CountBits(|input|, |fed|);
      var i, left, full := Blocks(done, index, input);
      Fill(left, input[i..]);
      ghost var all, rest := fed + input, left + |input| - i;
      assert all[full..] == all[full..|fed| + i] + input[i..];
      ContextBehind(all, full, rest, state[..], count[..], buffer[..]);
      fed := all;
    }

    /** Pads, appends the length, stores the digest and wipes the context. */
    method Final()
      requires Valid()
      modifies this, state, count, buffer, digestRaw
      ensures digestRaw[..] == Digest(old(fed)) && digestChars == Hex(digestRaw[..])
      ensures state[..] == [0, 0, 0, 0] && count[..] == [0, 0] && buffer[..] == Zeros(64)
    {
      hide ContextOf, Hash, BitCount, Encoded, Padded, Fits, Digest, Hex;
      ghost var message := fed;
      BlockBoundary(|fed|);
      ContextBehind(fed, |fed| - |fed| % 64, |fed| % 64, state[..], count[..], buffer[..]);
      var bits := new Byte[8];
      Encode(bits, count);
      var index := BufferIndex();
      var padLen := PadLength(index);
      SmallFits(|fed| % 64, padLen);
      Update(PADDING[..padLen]);
      SmallFits(|fed| % 64, 8);
      Update(bits[..]);
      PaddedIs(message, index);
      ContextBehind(fed, |fed|, 0, state[..], count[..], buffer[..]);
      assert fed[..|fed|] == fed;
      Encode(digestRaw, state);
      DigestIs(message);
      Wipe();
      WriteToString();
    }

    method Wipe()
      requires Shape()
      modifies state, count, buffer
      ensures state[..] == [0, 0, 0, 0] && count[..] == [0, 0] && buffer[..] == Zeros(64)
    {
      count[0], count[1] := 0, 0;
      state[0], state[1], state[2], state[3] := 0, 0, 0, 0;
      forall k | 0 <= k < 64 { buffer[k] := 0; }
    }

    method WriteToString()
      requires Shape()
      modifies this`digestChars
      ensures digestChars == Hex(digestRaw[..])
    {
      digestChars := "";
      Nothing();
      assert digestRaw[..0] == [];
      var pos := 0;
      while pos < 16
        invariant pos <= 16 && digestChars == Hex(digestRaw[..pos])
      {
        HexSnoc(digestRaw[..pos], digestRaw[pos]);
        assert digestRaw[..pos + 1] == digestRaw[..pos] + [digestRaw[pos]];
        digestChars := digestChars + TwoDigits(digestRaw[pos]);
        pos := pos + 1;
      }
      assert digestRaw[..16] == digestRaw[..];
    }

    /** `digestFile`: whatever the sizes of the chunks that are read, the digest is that of the whole file. */
    method DigestFile(chunks: seq<seq<Byte>>) returns (text: string)
      requires Shape() && forall c :: c in chunks ==> |c| <= 1024
      modifies this, state, count, buffer, digestRaw
      ensures digestRaw[..] == Digest(Flatten(chunks)) && text == Hex(digestRaw[..])
    {
      hide ContextOf, Digest, Hex, Flatten, Fits;
      Init();
      Nothing();
      assert chunks[..0] == [];
      var n := 0;
      while n < |chunks|
        invariant n <= |chunks| && Valid() && fed == Flatten(chunks[..n])
      {
        FlattenSnoc(chunks[..n], chunks[n]);
        assert chunks[..n + 1] == chunks[..n] + [chunks[n]];
        SmallFits(|fed| % 64, |chunks[n]|);
        Update(chunks[n]);
        n := n + 1;
      }
      assert chunks[..n] == chunks;
      Final();
      text := digestChars;
    }

    /** `digestMemory`; its length is a non-negative `int`. */
    method DigestMemory(chunk: seq<Byte>) returns (text: string)
      requires Shape() && |chunk| < 0x8000_0000
      modifies this, state, count, buffer, digestRaw
      ensures digestRaw[..] == Digest(chunk) && text == Hex(digestRaw[..])
    {
      hide ContextOf, Digest, Hex, Flatten, Fits;
      Init();
      SmallFits(0, |chunk|);
      Update(chunk);
      assert [] + chunk == chunk;
      Final();
      text := digestChars;
    }

    /** `digestString`: the length is cut to 32 bits, so of a string of 2^32 bytes or more only a prefix is digested. */
    method DigestString(text: seq<Byte>) returns (digest: string)
      requires Shape()
      modifies this, state, count, buffer, digestRaw
      ensures digestRaw[..] == Digest(Prefix32(text)) && digest == Hex(digestRaw[..])
    {
      hide ContextOf, Digest, Hex, Fits, Prefix32;
      Init();
      var input := Prefix32(text);
      EmptyBufferFits(|input|);
      Update(input);
      assert [] + input == input;
      Final();
      digest := digestChars;
    }
  }
}
