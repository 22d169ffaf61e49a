/**
 The MD5 code: 64 unrolled steps per block, and a state that takes a message in pieces of any size.
 The unrolled steps are proved equal to the 64-operation loop of RFC 1321, and the pieces to the
 digest of the whole message.
 */
module Md5Block {
  import opened Words
  import opened Md5Reference

  const T_MASK: Word := 0xffffffff
  const T1: Word := T_MASK ^ 0x28955b87
  const T2: Word := T_MASK ^ 0x173848a9
  const T3: Word := 0x242070db
  const T4: Word := T_MASK ^ 0x3e423111
  const T5: Word := T_MASK ^ 0x0a83f050
  const T6: Word := 0x4787c62a
  const T7: Word := T_MASK ^ 0x57cfb9ec
  const T8: Word := T_MASK ^ 0x02b96afe
  const T9: Word := 0x698098d8
  const T10: Word := T_MASK ^ 0x74bb0850
  const T11: Word := T_MASK ^ 0x0000a44e
  const T12: Word := T_MASK ^ 0x76a32841
  const T13: Word := 0x6b901122
  const T14: Word := T_MASK ^ 0x02678e6c
  const T15: Word := T_MASK ^ 0x5986bc71
  const T16: Word := 0x49b40821
  const T17: Word := T_MASK ^ 0x09e1da9d
  const T18: Word := T_MASK ^ 0x3fbf4cbf
  const T19: Word := 0x265e5a51
  const T20: Word := T_MASK ^ 0x16493855
  const T21: Word := T_MASK ^ 0x29d0efa2
  const T22: Word := 0x02441453
  const T23: Word := T_MASK ^ 0x275e197e
  const T24: Word := T_MASK ^ 0x182c0437
  const T25: Word := 0x21e1cde6
  const T26: Word := T_MASK ^ 0x3cc8f829
  const T27: Word := T_MASK ^ 0x0b2af278
  const T28: Word := 0x455a14ed
  const T29: Word := T_MASK ^ 0x561c16fa
  const T30: Word := T_MASK ^ 0x03105c07
  const T31: Word := 0x676f02d9
  const T32: Word := T_MASK ^ 0x72d5b375
  const T33: Word := T_MASK ^ 0x0005c6bd
  const T34: Word := T_MASK ^ 0x788e097e
  const T35: Word := 0x6d9d6122
  const T36: Word := T_MASK ^ 0x021ac7f3
  const T37: Word := T_MASK ^ 0x5b4115bb
  const T38: Word := 0x4bdecfa9
  const T39: Word := T_MASK ^ 0x0944b49f
  const T40: Word := T_MASK ^ 0x4140438f
  const T41: Word := 0x289b7ec6
  const T42: Word := T_MASK ^ 0x155ed805
  const T43: Word := T_MASK ^ 0x2b10cf7a
  const T44: Word := 0x04881d05
  const T45: Word := T_MASK ^ 0x262b2fc6
  const T46: Word := T_MASK ^ 0x1924661a
  const T47: Word := 0x1fa27cf8
  const T48: Word := T_MASK ^ 0x3b53a99a
  const T49: Word := T_MASK ^ 0x0bd6ddbb
  const T50: Word := 0x432aff97
  const T51: Word := T_MASK ^ 0x546bdc58
  const T52: Word := T_MASK ^ 0x036c5fc6
  const T53: Word := 0x655b59c3
  const T54: Word := T_MASK ^ 0x70f3336d
  const T55: Word := T_MASK ^ 0x00100b82
  const T56: Word := T_MASK ^ 0x7a7ba22e
  const T57: Word := 0x6fa87e4f
  const T58: Word := T_MASK ^ 0x01d3191f
  const T59: Word := T_MASK ^ 0x5cfebceb
  const T60: Word := 0x4e0811a1
  const T61: Word := T_MASK ^ 0x08ac817d
  const T62: Word := T_MASK ^ 0x42c50dca
  const T63: Word := 0x2ad7d2bb
  const T64: Word := T_MASK ^ 0x14792c6e

  function SetF(a: Word, b: Word, c: Word, d: Word, xk: Word, s: nat, ti: Word): Word
    requires 0 < s < 32
  {
    var t := Sum(a, F(b, c, d), xk, ti);
    Add(RotateLeft(t, s), b)
  }

  function SetG(a: Word, b: Word, c: Word, d: Word, xk: Word, s: nat, ti: Word): Word
    requires 0 < s < 32
  {
    var t := Sum(a, G(b, c, d), xk, ti);
    Add(RotateLeft(t, s), b)
  }

  function SetH(a: Word, b: Word, c: Word, d: Word, xk: Word, s: nat, ti: Word): Word
    requires 0 < s < 32
  {
    var t := Sum(a, H(b, c, d), xk, ti);
    Add(RotateLeft(t, s), b)
  }

  function SetI(a: Word, b: Word, c: Word, d: Word, xk: Word, s: nat, ti: Word): Word
    requires 0 < s < 32
  {
    var t := Sum(a, I(b, c, d), xk, ti);
    Add(RotateLeft(t, s), b)
  }

  lemma NextOperation(r: Registers, x: seq<Word>, i: nat)
    requires |x| == 16 && i < 64
    ensures Operations(r, x, i) == Operations(Operation(r, x, i), x, i + 1)
  {
    hide Operation;
  }

  lemma StepF(r: Registers, x: seq<Word>, i: nat, k: nat, s: nat, ti: Word)
    requires |x| == 16 && 0 <= i < 16 && Scheduled(i, k, s, ti)
    ensures Operations(r, x, i) == Operations(Registers(r.d, SetF(r.a, r.b, r.c, r.d, x[k], s, ti), r.b, r.c), x, i + 1)
  {
    hide *;
    NextOperation(r, x, i);
    OperationF(r, x, i, k, s, ti);
  }

  lemma OperationF(r: Registers, x: seq<Word>, i: nat, k: nat, s: nat, ti: Word)
    requires |x| == 16 && 0 <= i < 16 && Scheduled(i, k, s, ti)
    ensures Operation(r, x, i) == Registers(r.d, SetF(r.a, r.b, r.c, r.d, x[k], s, ti), r.b, r.c)
  {
    hide F, Sum, Add, RotateLeft, K, S, T;
    AddCommutes(r.b, RotateLeft(Sum(r.a, F(r.b, r.c, r.d), x[k], ti), s));
  }

  lemma StepG(r: Registers, x: seq<Word>, i: nat, k: nat, s: nat, ti: Word)
    requires |x| == 16 && 16 <= i < 32 && Scheduled(i, k, s, ti)
    ensures Operations(r, x, i) == Operations(Registers(r.d, SetG(r.a, r.b, r.c, r.d, x[k], s, ti), r.b, r.c), x, i + 1)
  {
    hide *;
    NextOperation(r, x, i);
    OperationG(r, x, i, k, s, ti);
  }

  lemma OperationG(r: Registers, x: seq<Word>, i: nat, k: nat, s: nat, ti: Word)
    requires |x| == 16 && 16 <= i < 32 && Scheduled(i, k, s, ti)
    ensures Operation(r, x, i) == Registers(r.d, SetG(r.a, r.b, r.c, r.d, x[k], s, ti), r.b, r.c)
  {
    hide G, Sum, Add, RotateLeft, K, S, T;
    AddCommutes(r.b, RotateLeft(Sum(r.a, G(r.b, r.c, r.d), x[k], ti), s));
  }

  lemma StepH(r: Registers, x: seq<Word>, i: nat, k: nat, s: nat, ti: Word)
    requires |x| == 16 && 32 <= i < 48 && Scheduled(i, k, s, ti)
    ensures Operations(r, x, i) == Operations(Registers(r.d, SetH(r.a, r.b, r.c, r.d, x[k], s, ti), r.b, r.c), x, i + 1)
  {
    hide *;
    NextOperation(r, x, i);
    OperationH(r, x, i, k, s, ti);
  }

  lemma OperationH(r: Registers, x: seq<Word>, i: nat, k: nat, s: nat, ti: Word)
    requires |x| == 16 && 32 <= i < 48 && Scheduled(i, k, s, ti)
    ensures Operation(r, x, i) == Registers(r.d, SetH(r.a, r.b, r.c, r.d, x[k], s, ti), r.b, r.c)
  {
    hide H, Sum, Add, RotateLeft, K, S, T;
    AddCommutes(r.b, RotateLeft(Sum(r.a, H(r.b, r.c, r.d), x[k], ti), s));
  }

  lemma StepI(r: Registers, x: seq<Word>, i: nat, k: nat, s: nat, ti: Word)
    requires |x| == 16 && 48 <= i < 64 && Scheduled(i, k, s, ti)
    ensures Operations(r, x, i) == Operations(Registers(r.d, SetI(r.a, r.b, r.c, r.d, x[k], s, ti), r.b, r.c), x, i + 1)
  {
    hide *;
    NextOperation(r, x, i);
    OperationI(r, x, i, k, s, ti);
  }

  lemma OperationI(r: Registers, x: seq<Word>, i: nat, k: nat, s: nat, ti: Word)
    requires |x| == 16 && 48 <= i < 64 && Scheduled(i, k, s, ti)
    ensures Operation(r, x, i) == Registers(r.d, SetI(r.a, r.b, r.c, r.d, x[k], s, ti), r.b, r.c)
  {
    hide I, Sum, Add, RotateLeft, K, S, T;
    AddCommutes(r.b, RotateLeft(Sum(r.a, I(r.b, r.c, r.d), x[k], ti), s));
  }

  /** Step i uses word k, rotates by s and adds ti. */
  predicate Scheduled(i: nat, k: nat, s: nat, ti: Word) {
    K(i) == k && S(i) == s && T(i) == ti
  }

  lemma Schedule00()
    ensures Scheduled(0, 0, 7, T1) && Scheduled(1, 1, 12, T2)
    ensures Scheduled(2, 2, 17, T3) && Scheduled(3, 3, 22, T4)
    ensures Scheduled(4, 4, 7, T5) && Scheduled(5, 5, 12, T6)
    ensures Scheduled(6, 6, 17, T7) && Scheduled(7, 7, 22, T8)
  {
  }

  lemma Schedule08()
    ensures Scheduled(8, 8, 7, T9) && Scheduled(9, 9, 12, T10)
    ensures Scheduled(10, 10, 17, T11) && Scheduled(11, 11, 22, T12)
    ensures Scheduled(12, 12, 7, T13) && Scheduled(13, 13, 12, T14)
    ensures Scheduled(14, 14, 17, T15) && Scheduled(15, 15, 22, T16)
  {
  }

  lemma Schedule16()
    ensures Scheduled(16, 1, 5, T17) && Scheduled(17, 6, 9, T18)
    ensures Scheduled(18, 11, 14, T19) && Scheduled(19, 0, 20, T20)
    ensures Scheduled(20, 5, 5, T21) && Scheduled(21, 10, 9, T22)
    ensures Scheduled(22, 15, 14, T23) && Scheduled(23, 4, 20, T24)
  {
  }

  lemma Schedule24()
    ensures Scheduled(24, 9, 5, T25) && Scheduled(25, 14, 9, T26)
    ensures Scheduled(26, 3, 14, T27) && Scheduled(27, 8, 20, T28)
    ensures Scheduled(28, 13, 5, T29) && Scheduled(29, 2, 9, T30)
    ensures Scheduled(30, 7, 14, T31) && Scheduled(31, 12, 20, T32)
  {
  }

  lemma Schedule32()
    ensures Scheduled(32, 5, 4, T33) && Scheduled(33, 8, 11, T34)
    ensures Scheduled(34, 11, 16, T35) && Scheduled(35, 14, 23, T36)
    ensures Scheduled(36, 1, 4, T37) && Scheduled(37, 4, 11, T38)
    ensures Scheduled(38, 7, 16, T39) && Scheduled(39, 10, 23, T40)
  {
  }

  lemma Schedule40()
    ensures Scheduled(40, 13, 4, T41) && Scheduled(41, 0, 11, T42)
    ensures Scheduled(42, 3, 16, T43) && Scheduled(43, 6, 23, T44)
    ensures Scheduled(44, 9, 4, T45) && Scheduled(45, 12, 11, T46)
    ensures Scheduled(46, 15, 16, T47) && Scheduled(47, 2, 23, T48)
  {
  }

  lemma Schedule48()
    ensures Scheduled(48, 0, 6, T49) && Scheduled(49, 7, 10, T50)
    ensures Scheduled(50, 14, 15, T51) && Scheduled(51, 5, 21, T52)
    ensures Scheduled(52, 12, 6, T53) && Scheduled(53, 3, 10, T54)
    ensures Scheduled(54, 10, 15, T55) && Scheduled(55, 1, 21, T56)
  {
  }

  lemma Schedule56()
    ensures Scheduled(56, 8, 6, T57) && Scheduled(57, 15, 10, T58)
    ensures Scheduled(58, 6, 15, T59) && Scheduled(59, 13, 21, T60)
    ensures Scheduled(60, 4, 6, T61) && Scheduled(61, 11, 10, T62)
    ensures Scheduled(62, 2, 15, T63) && Scheduled(63, 9, 21, T64)
  {
  }

  /** The first half of round 1. */
  method Round1Low(a0: Word, b0: Word, c0: Word, d0: Word, x: seq<Word>) returns (a: Word, b: Word, c: Word, d: Word)
    requires |x| == 16
    ensures Operations(Registers(a0, b0, c0, d0), x, 0) == Operations(Registers(a, b, c, d), x, 8)
  {
    hide *;
    Schedule00();
    a, b, c, d := a0, b0, c0, d0;
    StepF(Registers(a, b, c, d), x, 0, 0, 7, T1);
    a := SetF(a, b, c, d, x[0], 7, T1);
    StepF(Registers(d, a, b, c), x, 1, 1, 12, T2);
    d := SetF(d, a, b, c, x[1], 12, T2);
    StepF(Registers(c, d, a, b), x, 2, 2, 17, T3);
    c := SetF(c, d, a, b, x[2], 17, T3);
    StepF(Registers(b, c, d, a), x, 3, 3, 22, T4);
    b := SetF(b, c, d, a, x[3], 22, T4);
    StepF(Registers(a, b, c, d), x, 4, 4, 7, T5);
    a := SetF(a, b, c, d, x[4], 7, T5);
    StepF(Registers(d, a, b, c), x, 5, 5, 12, T6);
    d := SetF(d, a, b, c, x[5], 12, T6);
    StepF(Registers(c, d, a, b), x, 6, 6, 17, T7);
    c := SetF(c, d, a, b, x[6], 17, T7);
    StepF(Registers(b, c, d, a), x, 7, 7, 22, T8);
    b := SetF(b, c, d, a, x[7], 22, T8);
  }

  /** The second half of round 1. */
  method Round1High(a0: Word, b0: Word, c0: Word, d0: Word, x: seq<Word>) returns (a: Word, b: Word, c: Word, d: Word)
    requires |x| == 16
    ensures Operations(Registers(a0, b0, c0, d0), x, 8) == Operations(Registers(a, b, c, d), x, 16)
  {
    hide *;
    Schedule08();
    a, b, c, d := a0, b0, c0, d0;
    StepF(Registers(a, b, c, d), x, 8, 8, 7, T9);
    a := SetF(a, b, c, d, x[8], 7, T9);
    StepF(Registers(d, a, b, c), x, 9, 9, 12, T10);
    d := SetF(d, a, b, c, x[9], 12, T10);
    StepF(Registers(c, d, a, b), x, 10, 10, 17, T11);
    c := SetF(c, d, a, b, x[10], 17, T11);
    StepF(Registers(b, c, d, a), x, 11, 11, 22, T12);
    b := SetF(b, c, d, a, x[11], 22, T12);
    StepF(Registers(a, b, c, d), x, 12, 12, 7, T13);
    a := SetF(a, b, c, d, x[12], 7, T13);
    StepF(Registers(d, a, b, c), x, 13, 13, 12, T14);
    d := SetF(d, a, b, c, x[13], 12, T14);
    StepF(Registers(c, d, a, b), x, 14, 14, 17, T15);
    c := SetF(c, d, a, b, x[14], 17, T15);
    StepF(Registers(b, c, d, a), x, 15, 15, 22, T16);
    b := SetF(b, c, d, a, x[15], 22, T16);
  }

  /** Round 1: sixteen of the unrolled steps. */
  method Round1(a0: Word, b0: Word, c0: Word, d0: Word, x: seq<Word>) returns (a: Word, b: Word, c: Word, d: Word)
    requires |x| == 16
    ensures Operations(Registers(a0, b0, c0, d0), x, 0) == Operations(Registers(a, b, c, d), x, 16)
  {
    hide *;
    a, b, c, d := Round1Low(a0, b0, c0, d0, x);
    a, b, c, d := Round1High(a, b, c, d, x);
  }

  /** Round 2: sixteen of the unrolled steps. */
  method Round2(a0: Word, b0: Word, c0: Word, d0: Word, x: seq<Word>) returns (a: Word, b: Word, c: Word, d: Word)
    requires |x| == 16
    ensures Operations(Registers(a0, b0, c0, d0), x, 16) == Operations(Registers(a, b, c, d), x, 32)
  {
    hide *;
    Schedule16();
    Schedule24();
    a, b, c, d := a0, b0, c0, d0;
    StepG(Registers(a, b, c, d), x, 16, 1, 5, T17);
    a := SetG(a, b, c, d, x[1], 5, T17);
    StepG(Registers(d, a, b, c), x, 17, 6, 9, T18);
    d := SetG(d, a, b, c, x[6], 9, T18);
    StepG(Registers(c, d, a, b), x, 18, 11, 14, T19);
    c := SetG(c, d, a, b, x[11], 14, T19);
    StepG(Registers(b, c, d, a), x, 19, 0, 20, T20);
    b := SetG(b, c, d, a, x[0], 20, T20);
    StepG(Registers(a, b, c, d), x, 20, 5, 5, T21);
    a := SetG(a, b, c, d, x[5], 5, T21);
    StepG(Registers(d, a, b, c), x, 21, 10, 9, T22);
    d := SetG(d, a, b, c, x[10], 9, T22);
    StepG(Registers(c, d, a, b), x, 22, 15, 14, T23);
    c := SetG(c, d, a, b, x[15], 14, T23);
    StepG(Registers(b, c, d, a), x, 23, 4, 20, T24);
    b := SetG(b, c, d, a, x[4], 20, T24);
    StepG(Registers(a, b, c, d), x, 24, 9, 5, T25);
    a := SetG(a, b, c, d, x[9], 5, T25);
    StepG(Registers(d, a, b, c), x, 25, 14, 9, T26);
    d := SetG(d, a, b, c, x[14], 9, T26);
    StepG(Registers(c, d, a, b), x, 26, 3, 14, T27);
    c := SetG(c, d, a, b, x[3], 14, T27);
    StepG(Registers(b, c, d, a), x, 27, 8, 20, T28);
    b := SetG(b, c, d, a, x[8], 20, T28);
    StepG(Registers(a, b, c, d), x, 28, 13, 5, T29);
    a := SetG(a, b, c, d, x[13], 5, T29);
    StepG(Registers(d, a, b, c), x, 29, 2, 9, T30);
    d := SetG(d, a, b, c, x[2], 9, T30);
    StepG(Registers(c, d, a, b), x, 30, 7, 14, T31);
    c := SetG(c, d, a, b, x[7], 14, T31);
    StepG(Registers(b, c, d, a), x, 31, 12, 20, T32);
    b := SetG(b, c, d, a, x[12], 20, T32);
  }

  /** Round 3: sixteen of the unrolled steps. */
  method Round3(a0: Word, b0: Word, c0: Word, d0: Word, x: seq<Word>) returns (a: Word, b: Word, c: Word, d: Word)
    requires |x| == 16
    ensures Operations(Registers(a0, b0, c0, d0), x, 32) == Operations(Registers(a, b, c, d), x, 48)
  {
    hide *;
    Schedule32();
    Schedule40();
    a, b, c, d := a0, b0, c0, d0;
    StepH(Registers(a, b, c, d), x, 32, 5, 4, T33);
    a := SetH(a, b, c, d, x[5], 4, T33);
    StepH(Registers(d, a, b, c), x, 33, 8, 11, T34);
    d := SetH(d, a, b, c, x[8], 11, T34);
    StepH(Registers(c, d, a, b), x, 34, 11, 16, T35);
    c := SetH(c, d, a, b, x[11], 16, T35);
    StepH(Registers(b, c, d, a), x, 35, 14, 23, T36);
    b := SetH(b, c, d, a, x[14], 23, T36);
    StepH(Registers(a, b, c, d), x, 36, 1, 4, T37);
    a := SetH(a, b, c, d, x[1], 4, T37);
    StepH(Registers(d, a, b, c), x, 37, 4, 11, T38);
    d := SetH(d, a, b, c, x[4], 11, T38);
    StepH(Registers(c, d, a, b), x, 38, 7, 16, T39);
    c := SetH(c, d, a, b, x[7], 16, T39);
    StepH(Registers(b, c, d, a), x, 39, 10, 23, T40);
    b := SetH(b, c, d, a, x[10], 23, T40);
    StepH(Registers(a, b, c, d), x, 40, 13, 4, T41);
    a := SetH(a, b, c, d, x[13], 4, T41);
    StepH(Registers(d, a, b, c), x, 41, 0, 11, T42);
    d := SetH(d, a, b, c, x[0], 11, T42);
    StepH(Registers(c, d, a, b), x, 42, 3, 16, T43);
    c := SetH(c, d, a, b, x[3], 16, T43);
    StepH(Registers(b, c, d, a), x, 43, 6, 23, T44);
    b := SetH(b, c, d, a, x[6], 23, T44);
    StepH(Registers(a, b, c, d), x, 44, 9, 4, T45);
    a := SetH(a, b, c, d, x[9], 4, T45);
    StepH(Registers(d, a, b, c), x, 45, 12, 11, T46);
    d := SetH(d, a, b, c, x[12], 11, T46);
    StepH(Registers(c, d, a, b), x, 46, 15, 16, T47);
    c := SetH(c, d, a, b, x[15], 16, T47);
    StepH(Registers(b, c, d, a), x, 47, 2, 23, T48);
    b := SetH(b, c, d, a, x[2], 23, T48);
  }

  /** Round 4: sixteen of the unrolled steps. */
  method Round4(a0: Word, b0: Word, c0: Word, d0: Word, x: seq<Word>) returns (a: Word, b: Word, c: Word, d: Word)
    requires |x| == 16
    ensures Operations(Registers(a0, b0, c0, d0), x, 48) == Operations(Registers(a, b, c, d), x, 64)
  {
    hide *;
    Schedule48();
    Schedule56();
    a, b, c, d := a0, b0, c0, d0;
    StepI(Registers(a, b, c, d), x, 48, 0, 6, T49);
    a := SetI(a, b, c, d, x[0], 6, T49);
    StepI(Registers(d, a, b, c), x, 49, 7, 10, T50);
    d := SetI(d, a, b, c, x[7], 10, T50);
    StepI(Registers(c, d, a, b), x, 50, 14, 15, T51);
    c := SetI(c, d, a, b, x[14], 15, T51);
    StepI(Registers(b, c, d, a), x, 51, 5, 21, T52);
    b := SetI(b, c, d, a, x[5], 21, T52);
    StepI(Registers(a, b, c, d), x, 52, 12, 6, T53);
    a := SetI(a, b, c, d, x[12], 6, T53);
    StepI(Registers(d, a, b, c), x, 53, 3, 10, T54);
    d := SetI(d, a, b, c, x[3], 10, T54);
    StepI(Registers(c, d, a, b), x, 54, 10, 15, T55);
    c := SetI(c, d, a, b, x[10], 15, T55);
    StepI(Registers(b, c, d, a), x, 55, 1, 21, T56);
    b := SetI(b, c, d, a, x[1], 21, T56);
    StepI(Registers(a, b, c, d), x, 56, 8, 6, T57);
    a := SetI(a, b, c, d, x[8], 6, T57);
    StepI(Registers(d, a, b, c), x, 57, 15, 10, T58);
    d := SetI(d, a, b, c, x[15], 10, T58);
    StepI(Registers(c, d, a, b), x, 58, 6, 15, T59);
    c := SetI(c, d, a, b, x[6], 15, T59);
    StepI(Registers(b, c, d, a), x, 59, 13, 21, T60);
    b := SetI(b, c, d, a, x[13], 21, T60);
    StepI(Registers(a, b, c, d), x, 60, 4, 6, T61);
    a := SetI(a, b, c, d, x[4], 6, T61);
    StepI(Registers(d, a, b, c), x, 61, 11, 10, T62);
    d := SetI(d, a, b, c, x[11], 10, T62);
    StepI(Registers(c, d, a, b), x, 62, 2, 15, T63);
    c := SetI(c, d, a, b, x[2], 15, T63);
    StepI(Registers(b, c, d, a), x, 63, 9, 21, T64);
    b := SetI(b, c, d, a, x[9], 21, T64);
  }

  /** md5_process: the four rounds, and the registers added to what they were. */
  method ProcessBlock(abcd: Registers, data: seq<Byte>) returns (r: Registers)
    requires |data| == 64
    ensures r == Process(abcd, data)
  {
    hide Operations, WordAt, Add;
    var x := BlockWords(data);
    var a, b, c, d := Round1(abcd.a, abcd.b, abcd.c, abcd.d, x);
    a, b, c, d := Round2(a, b, c, d, x);
    a, b, c, d := Round3(a, b, c, d, x);
    a, b, c, d := Round4(a, b, c, d, x);
    NoOperationsLeft(Registers(a, b, c, d), x);
    r := Registers(Add(abcd.a, a), Add(abcd.b, b), Add(abcd.c, c), Add(abcd.d, d));
  }

  lemma NoOperationsLeft(r: Registers, x: seq<Word>)
    requires |x| == 16
    ensures Operations(r, x, 64) == r
  {
  }
}
