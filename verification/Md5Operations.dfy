/** Boost_Searcher/limonp/include/limonp/Md5.hpp: the block transform is that of section 3.4 of RFC 1321. The 64 operations are
    written out as they stand there and in the source, and the digest of the RFC's own example comes out. */
module Md5Operations {
  import opened Md5

  /** The auxiliary functions. */
  datatype Fn = F | G | H | I

  type Register = r: nat | r < 4
  type WordIndex = k: nat | k < 16

  const A: Register := 0
  const B: Register := 1
  const C: Register := 2
  const D: Register := 3

  /** `[abcd k s t]`: register `a` becomes `b + ((a + fn(b, c, d) + X[k] + t) <<< s)`. */
  datatype Op = Op(fn: Fn, a: Register, b: Register, c: Register, d: Register, k: WordIndex, s: Shift, t: bv32)

  /** Operation `n` of 64, counted from 0. */
  function Operation(n: nat): Op {
    if n < 16 then Round1(n) else if n < 32 then Round2(n - 16) else if n < 48 then Round3(n - 32) else Round4(n - 48)
  }

  function Round1(n: nat): Op {
    match n
    case 0 => Op(F, A, B, C, D, 0, 7, 0xd76aa478) case 1 => Op(F, D, A, B, C, 1, 12, 0xe8c7b756)
    case 2 => Op(F, C, D, A, B, 2, 17, 0x242070db) case 3 => Op(F, B, C, D, A, 3, 22, 0xc1bdceee)
    case 4 => Op(F, A, B, C, D, 4, 7, 0xf57c0faf) case 5 => Op(F, D, A, B, C, 5, 12, 0x4787c62a)
    case 6 => Op(F, C, D, A, B, 6, 17, 0xa8304613) case 7 => Op(F, B, C, D, A, 7, 22, 0xfd469501)
    case 8 => Op(F, A, B, C, D, 8, 7, 0x698098d8) case 9 => Op(F, D, A, B, C, 9, 12, 0x8b44f7af)
    case 10 => Op(F, C, D, A, B, 10, 17, 0xffff5bb1) case 11 => Op(F, B, C, D, A, 11, 22, 0x895cd7be)
    case 12 => Op(F, A, B, C, D, 12, 7, 0x6b901122) case 13 => Op(F, D, A, B, C, 13, 12, 0xfd987193)
    case 14 => Op(F, C, D, A, B, 14, 17, 0xa679438e) case _ => Op(F, B, C, D, A, 15, 22, 0x49b40821)
  }

  function Round2(n: nat): Op {
    match n
    case 0 => Op(G, A, B, C, D, 1, 5, 0xf61e2562) case 1 => Op(G, D, A, B, C, 6, 9, 0xc040b340)
    case 2 => Op(G, C, D, A, B, 11, 14, 0x265e5a51) case 3 => Op(G, B, C, D, A, 0, 20, 0xe9b6c7aa)
    case 4 => Op(G, A, B, C, D, 5, 5, 0xd62f105d) case 5 => Op(G, D, A, B, C, 10, 9, 0x2441453)
    case 6 => Op(G, C, D, A, B, 15, 14, 0xd8a1e681) case 7 => Op(G, B, C, D, A, 4, 20, 0xe7d3fbc8)
    case 8 => Op(G, A, B, C, D, 9, 5, 0x21e1cde6) case 9 => Op(G, D, A, B, C, 14, 9, 0xc33707d6)
    case 10 => Op(G, C, D, A, B, 3, 14, 0xf4d50d87) case 11 => Op(G, B, C, D, A, 8, 20, 0x455a14ed)
    case 12 => Op(G, A, B, C, D, 13, 5, 0xa9e3e905) case 13 => Op(G, D, A, B, C, 2, 9, 0xfcefa3f8)
    case 14 => Op(G, C, D, A, B, 7, 14, 0x676f02d9) case _ => Op(G, B, C, D, A, 12, 20, 0x8d2a4c8a)
  }

  function Round3(n: nat): Op {
    match n
    case 0 => Op(H, A, B, C, D, 5, 4, 0xfffa3942) case 1 => Op(H, D, A, B, C, 8, 11, 0x8771f681)
    case 2 => Op(H, C, D, A, B, 11, 16, 0x6d9d6122) case 3 => Op(H, B, C, D, A, 14, 23, 0xfde5380c)
    case 4 => Op(H, A, B, C, D, 1, 4, 0xa4beea44) case 5 => Op(H, D, A, B, C, 4, 11, 0x4bdecfa9)
    case 6 => Op(H, C, D, A, B, 7, 16, 0xf6bb4b60) case 7 => Op(H, B, C, D, A, 10, 23, 0xbebfbc70)
    case 8 => Op(H, A, B, C, D, 13, 4, 0x289b7ec6) case 9 => Op(H, D, A, B, C, 0, 11, 0xeaa127fa)
    case 10 => Op(H, C, D, A, B, 3, 16, 0xd4ef3085) case 11 => Op(H, B, C, D, A, 6, 23, 0x4881d05)
    case 12 => Op(H, A, B, C, D, 9, 4, 0xd9d4d039) case 13 => Op(H, D, A, B, C, 12, 11, 0xe6db99e5)
    case 14 => Op(H, C, D, A, B, 15, 16, 0x1fa27cf8) case _ => Op(H, B, C, D, A, 2, 23, 0xc4ac5665)
  }

  function Round4(n: nat): Op {
    match n
    case 0 => Op(I, A, B, C, D, 0, 6, 0xf4292244) case 1 => Op(I, D, A, B, C, 7, 10, 0x432aff97)
    case 2 => Op(I, C, D, A, B, 14, 15, 0xab9423a7) case 3 => Op(I, B, C, D, A, 5, 21, 0xfc93a039)
    case 4 => Op(I, A, B, C, D, 12, 6, 0x655b59c3) case 5 => Op(I, D, A, B, C, 3, 10, 0x8f0ccc92)
    case 6 => Op(I, C, D, A, B, 10, 15, 0xffeff47d) case 7 => Op(I, B, C, D, A, 1, 21, 0x85845dd1)
    case 8 => Op(I, A, B, C, D, 8, 6, 0x6fa87e4f) case 9 => Op(I, D, A, B, C, 15, 10, 0xfe2ce6e0)
    case 10 => Op(I, C, D, A, B, 6, 15, 0xa3014314) case 11 => Op(I, B, C, D, A, 13, 21, 0x4e0811a1)
    case 12 => Op(I, A, B, C, D, 4, 6, 0xf7537e82) case 13 => Op(I, D, A, B, C, 11, 10, 0xbd3af235)
    case 14 => Op(I, C, D, A, B, 2, 15, 0x2ad7d2bb) case _ => Op(I, B, C, D, A, 9, 21, 0xeb86d391)
  }

  /** The auxiliary functions, as section 3.4 writes them. */
  function Aux(fn: Fn, x: bv32, y: bv32, z: bv32): bv32 {
    match fn
    case F => (x & y) | (!x & z)
    case G => (x & z) | (y & !z)
    case H => x ^ y ^ z
    case I => y ^ (x | !z)
  }

  /** On the bits of a mask: `F` is "if x then y else z", `G` is "if z then x else y", `H` is the parity, and `I` turns the
      bits of `y` over where `x` is set or `z` is not. With masks of one bit this says what each bit is. */
  lemma FBitByBit(x: bv32, y: bv32, z: bv32, m: bv32)
    ensures x & m == m ==> Aux(F, x, y, z) & m == y & m
    ensures x & m == 0 ==> Aux(F, x, y, z) & m == z & m
  {
  }

  lemma GBitByBit(x: bv32, y: bv32, z: bv32, m: bv32)
    ensures z & m == m ==> Aux(G, x, y, z) & m == x & m
    ensures z & m == 0 ==> Aux(G, x, y, z) & m == y & m
  {
  }

  lemma HBitByBit(x: bv32, y: bv32, z: bv32, m: bv32)
    ensures x & m == y & m ==> Aux(H, x, y, z) & m == z & m
    ensures x & m == !y & m ==> Aux(H, x, y, z) & m == !z & m
  {
  }

  lemma IBitByBit(x: bv32, y: bv32, z: bv32, m: bv32)
    ensures x & m == m || z & m == 0 ==> Aux(I, x, y, z) & m == !y & m
    ensures x & m == 0 && z & m == m ==> Aux(I, x, y, z) & m == y & m
  {
  }

  /** The source's two shifts rotate. */
  lemma Rotates(x: bv32)
    ensures RotateLeft(x, 7) == x.RotateLeft(7) && RotateLeft(x, 12) == x.RotateLeft(12)
    ensures RotateLeft(x, 17) == x.RotateLeft(17) && RotateLeft(x, 22) == x.RotateLeft(22)
    ensures RotateLeft(x, 5) == x.RotateLeft(5) && RotateLeft(x, 9) == x.RotateLeft(9)
    ensures RotateLeft(x, 14) == x.RotateLeft(14) && RotateLeft(x, 20) == x.RotateLeft(20)
    ensures RotateLeft(x, 4) == x.RotateLeft(4) && RotateLeft(x, 11) == x.RotateLeft(11)
    ensures RotateLeft(x, 16) == x.RotateLeft(16) && RotateLeft(x, 23) == x.RotateLeft(23)
    ensures RotateLeft(x, 6) == x.RotateLeft(6) && RotateLeft(x, 10) == x.RotateLeft(10)
    ensures RotateLeft(x, 15) == x.RotateLeft(15) && RotateLeft(x, 21) == x.RotateLeft(21)
  {
  }

  type Regs = r: seq<bv32> | |r| == 4 witness [0, 0, 0, 0]

  function Apply(o: Op, r: Regs, x: seq<Word>): Regs
    requires |x| == 16
  {
    r[o.a := Written(r[o.a], r[o.b], Aux(o.fn, r[o.b], r[o.c], r[o.d]), x[o.k], o.s, o.t)]
  }

  /** The registers after the first `n` operations. */
  function Applied(n: nat, r: Regs, x: seq<Word>): Regs
    requires n <= 64 && |x| == 16
  {
    if n == 0 then r else Apply(Operation(n - 1), Applied(n - 1, r, x), x)
  }

  // ---------------------------------------------------------------- the transform is the 64 operations

  /** Which register is in turn to be `a` of operation `n`, and so on. */
  function Turn(n: nat, i: nat): (r: Register)
    requires n <= 64
  {
    (64 - n + i) % 4
  }

  /** The registers in the order of operation `n`. */
  function Turned(n: nat, r: Regs): Registers
    requires n <= 64
  {
    Registers(r[Turn(n, 0)], r[Turn(n, 1)], r[Turn(n, 2)], r[Turn(n, 3)])
  }

  function FnOf(n: nat): Fn {
    if n < 16 then F else if n < 32 then G else if n < 48 then H else I
  }

  /** Operation `n` in closed form. */
  predicate InTable(n: nat)
    requires n < 64
  {
    Operation(n) == Op(FnOf(n), Turn(n, 0), Turn(n, 1), Turn(n, 2), Turn(n, 3), Index(n), ShiftOf(n), Sine(n))
  }

  lemma Table1()
    ensures InTable(0) && InTable(1) && InTable(2) && InTable(3)
  {
  }

  lemma Table2()
    ensures InTable(4) && InTable(5) && InTable(6) && InTable(7)
  {
  }

  lemma Table3()
    ensures InTable(8) && InTable(9) && InTable(10) && InTable(11)
  {
  }

  lemma Table4()
    ensures InTable(12) && InTable(13) && InTable(14) && InTable(15)
  {
  }

  lemma Table5()
    ensures InTable(16) && InTable(17) && InTable(18) && InTable(19)
  {
  }

  lemma Table6()
    ensures InTable(20) && InTable(21) && InTable(22) && InTable(23)
  {
  }

  lemma Table7()
    ensures InTable(24) && InTable(25) && InTable(26) && InTable(27)
  {
  }

  lemma Table8()
    ensures InTable(28) && InTable(29) && InTable(30) && InTable(31)
  {
  }

  lemma Table9()
    ensures InTable(32) && InTable(33) && InTable(34) && InTable(35)
  {
  }

  lemma Table10()
    ensures InTable(36) && InTable(37) && InTable(38) && InTable(39)
  {
  }

  lemma Table11()
    ensures InTable(40) && InTable(41) && InTable(42) && InTable(43)
  {
  }

  lemma Table12()
    ensures InTable(44) && InTable(45) && InTable(46) && InTable(47)
  {
  }

  lemma Table13()
    ensures InTable(48) && InTable(49) && InTable(50) && InTable(51)
  {
  }

  lemma Table14()
    ensures InTable(52) && InTable(53) && InTable(54) && InTable(55)
  {
  }

  lemma Table15()
    ensures InTable(56) && InTable(57) && InTable(58) && InTable(59)
  {
  }

  lemma Table16()
    ensures InTable(60) && InTable(61) && InTable(62) && InTable(63)
  {
  }

  lemma AllInTable(n: nat)
    requires n < 64
    ensures InTable(n)
  {
    hide InTable;
    match n / 4
    case 0 => Table1(); case 1 => Table2(); case 2 => Table3(); case 3 => Table4();
    case 4 => Table5(); case 5 => Table6(); case 6 => Table7(); case 7 => Table8();
    case 8 => Table9(); case 9 => Table10(); case 10 => Table11(); case 11 => Table12();
    case 12 => Table13(); case 13 => Table14(); case 14 => Table15(); case _ => Table16();
  }

  lemma StepWrites(n: nat, r: Registers, x: seq<Word>)
    requires n < 64 && |x| == 16
    ensures Step(n, r, x) == Registers(r.d, Written(r.a, r.b, Round(n, r.b, r.c, r.d), x[Index(n)], ShiftOf(n), Sine(n)), r.b, r.c)
  {
    hide Round, Index, Sine, ShiftOf, RotateLeft, Written;
  }

  /** What operation `n` writes. */
  lemma OperationWrites(n: nat, r: Regs, x: seq<Word>) returns (v: bv32)
    requires n < 64 && |x| == 16
    ensures Apply(Operation(n), r, x) == r[Turn(n, 0) := v]
    ensures Step(n, Turned(n, r), x) == Registers(r[Turn(n, 3)], v, r[Turn(n, 1)], r[Turn(n, 2)])
  {
    hide Operation, Round, Aux, Index, FnOf, Turn, ShiftOf, Sine, Step, Written;
    AllInTable(n);
    RoundIsAux(n, r[Turn(n, 1)], r[Turn(n, 2)], r[Turn(n, 3)]);
    StepWrites(n, Turned(n, r), x);
    v := Step(n, Turned(n, r), x).b;
  }

  lemma StepIsOperation(n: nat, r: Regs, x: seq<Word>)
    requires n < 64 && |x| == 16
    ensures Turned(n + 1, Apply(Operation(n), r, x)) == Step(n, Turned(n, r), x)
  {
    hide Operation, Step, Apply, Turn;
    var v := OperationWrites(n, r, x);
    Turns(n);
  }

  lemma RoundIsAux(n: nat, x: bv32, y: bv32, z: bv32)
    ensures Round(n, x, y, z) == Aux(FnOf(n), x, y, z)
  {
  }

  /** The registers take turns. */
  lemma Turns(n: nat)
    requires n < 64
    ensures Turn(n + 1, 0) == Turn(n, 3) && Turn(n + 1, 1) == Turn(n, 0) && Turn(n + 1, 2) == Turn(n, 1) && Turn(n + 1, 3) == Turn(n, 2)
    ensures Turn(n, 0) != Turn(n, 1) && Turn(n, 0) != Turn(n, 2) && Turn(n, 0) != Turn(n, 3)
  {
  }

  lemma {:induction false} StepsAreOperations(n: nat, r: Regs, x: seq<Word>)
    requires n <= 64 && |x| == 16
    ensures Turned(n, Applied(n, r, x)) == Steps(n, Turned(0, r), x)
  {
    hide Operation, Step, Apply, Turned;
    if n > 0 {
      StepsAreOperations(n - 1, r, x);
      StepIsOperation(n - 1, Applied(n - 1, r, x), x);
    }
  }

  function Load(state: State): (r: Regs)
    ensures r == [state[0] as bv32, state[1] as bv32, state[2] as bv32, state[3] as bv32]
  {
    [state[0] as bv32, state[1] as bv32, state[2] as bv32, state[3] as bv32]
  }

  /** The transform applies the 64 operations to the 16 words of the block, and adds to each register what it held before. */
  lemma TransformIsOperations(state: State, block: seq<Byte>)
    requires |block| == 64
    ensures var r := Applied(64, Load(state), Decoded(block));
            Transform(state, block) == [(state[0] + r[0] as nat) % 0x1_0000_0000, (state[1] + r[1] as nat) % 0x1_0000_0000,
                                        (state[2] + r[2] as nat) % 0x1_0000_0000, (state[3] + r[3] as nat) % 0x1_0000_0000]
  {
    hide *;
    TransformIsApplied(state, block);
    AddedIs(state, Applied(64, Load(state), Decoded(block)));
  }

  lemma TransformIsApplied(state: State, block: seq<Byte>)
    requires |block| == 64
    ensures Transform(state, block) == Added(state, InOrder(Applied(64, Load(state), Decoded(block))))
  {
    hide Decoded, Steps, Applied, Turned, Transform, Added, Load, Loaded, InOrder;
    StepsAreOperations(64, Load(state), Decoded(block));
    TransformIs(state, block);
    LoadedIs(state);
    TurnedFully(Applied(64, Load(state), Decoded(block)));
  }

  function InOrder(r: Regs): Registers {
    Registers(r[0], r[1], r[2], r[3])
  }

  lemma LoadedIs(state: State)
    ensures Turned(0, Load(state)) == Loaded(state)
  {
  }

  lemma TransformIs(state: State, block: seq<Byte>)
    requires |block| == 64
    ensures Transform(state, block) == Added(state, Steps(64, Loaded(state), Decoded(block)))
  {
    hide Decoded, Steps, Added;
  }

  lemma TurnedFully(r: Regs)
    ensures Turned(64, r) == InOrder(r)
  {
  }

  lemma AddedIs(state: State, r: Regs)
    ensures Added(state, InOrder(r)) == [(state[0] + r[0] as nat) % 0x1_0000_0000, (state[1] + r[1] as nat) % 0x1_0000_0000,
                                         (state[2] + r[2] as nat) % 0x1_0000_0000, (state[3] + r[3] as nat) % 0x1_0000_0000]
  {
  }
}
