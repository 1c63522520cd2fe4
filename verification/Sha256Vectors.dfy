/** Digests that the standard's examples give, and the origin of its constants: the functions of Sha256 are those of
    FIPS 180-4. */
module Sha256Vectors {
  import opened Bytes
  import opened Sha256

  // ---------------------------------------------------------------- eight rounds at a time

  datatype Words = Words(w0: bv32, w1: bv32, w2: bv32, w3: bv32, w4: bv32, w5: bv32, w6: bv32, w7: bv32)

  /** Eight words of the message schedule. */
  function WordsAt(block: seq<Byte>, t: nat): Words
    requires |block| == 64
  {
    Words(Schedule(block, t), Schedule(block, t + 1), Schedule(block, t + 2), Schedule(block, t + 3),
          Schedule(block, t + 4), Schedule(block, t + 5), Schedule(block, t + 6), Schedule(block, t + 7))
  }

  /** One round, whose two new words are known. */
  lemma Step(r: Regs, k: bv32, w: bv32, a: bv32, e: bv32) returns (s: Regs)
    requires Add(Temp1(r.e, r.f, r.g, r.h, k, w), Temp2(r.a, r.b, r.c)) == a
    requires Add(r.d, Temp1(r.e, r.f, r.g, r.h, k, w)) == e
    ensures s == Round(r, k, w) == Regs(a, r.a, r.b, r.c, e, r.e, r.f, r.g)
  {
    hide Temp1, Temp2, Add;
    s := Round(r, k, w);
  }

  /** The eight words after sixteen. */
  function NextWords(x: Words, y: Words): Words {
    var a0, a1 := NextWord(y.w6, y.w1, x.w1, x.w0), NextWord(y.w7, y.w2, x.w2, x.w1);
    var a2, a3 := NextWord(a0, y.w3, x.w3, x.w2), NextWord(a1, y.w4, x.w4, x.w3);
    var a4, a5 := NextWord(a2, y.w5, x.w5, x.w4), NextWord(a3, y.w6, x.w6, x.w5);
    var a6, a7 := NextWord(a4, y.w7, x.w7, x.w6), NextWord(a5, a0, y.w0, x.w7);
    Words(a0, a1, a2, a3, a4, a5, a6, a7)
  }

  function NextRegs(r: Regs, k: Words, w: Words): Regs {
    var r2 := Round(Round(r, k.w0, w.w0), k.w1, w.w1);
    var r4 := Round(Round(r2, k.w2, w.w2), k.w3, w.w3);
    var r6 := Round(Round(r4, k.w4, w.w4), k.w5, w.w5);
    Round(Round(r6, k.w6, w.w6), k.w7, w.w7)
  }

  /** Eight constants. */
  function KAt(t: nat): Words
    requires t + 8 <= 64
  {
    Words(K[t], K[t + 1], K[t + 2], K[t + 3], K[t + 4], K[t + 5], K[t + 6], K[t + 7])
  }

  lemma EightMore(start: Regs, block: seq<Byte>, t: nat)
    requires |block| == 64 && t + 8 <= 64
    ensures WordsAt(block, t + 16) == NextWords(WordsAt(block, t), WordsAt(block, t + 8))
    ensures Rounds(start, block, t + 8) == NextRegs(Rounds(start, block, t), KAt(t), WordsAt(block, t))
  {
    hide *;
    MoreWords(block, t);
    MoreRounds(start, block, t);
  }

  lemma MoreWords(block: seq<Byte>, t: nat)
    requires |block| == 64
    ensures WordsAt(block, t + 16) == NextWords(WordsAt(block, t), WordsAt(block, t + 8))
  {
    hide NextWord, Schedule;
    OneWord(block, t);
    OneWord(block, t + 1);
    OneWord(block, t + 2);
    OneWord(block, t + 3);
    OneWord(block, t + 4);
    OneWord(block, t + 5);
    OneWord(block, t + 6);
    OneWord(block, t + 7);
  }

  lemma OneWord(block: seq<Byte>, t: nat)
    requires |block| == 64
    ensures Schedule(block, t + 16)
            == NextWord(Schedule(block, t + 14), Schedule(block, t + 9), Schedule(block, t + 1), Schedule(block, t))
  {
    hide NextWord;
  }

  lemma MoreRounds(start: Regs, block: seq<Byte>, t: nat)
    requires |block| == 64 && t + 8 <= 64
    ensures Rounds(start, block, t + 8) == NextRegs(Rounds(start, block, t), KAt(t), WordsAt(block, t))
  {
    hide Round, Schedule, Rounds;
    RoundsStep(start, block, t);
    RoundsStep(start, block, t + 1);
    RoundsStep(start, block, t + 2);
    RoundsStep(start, block, t + 3);
    RoundsStep(start, block, t + 4);
    RoundsStep(start, block, t + 5);
    RoundsStep(start, block, t + 6);
    RoundsStep(start, block, t + 7);
  }

  lemma CompressIs(r: Regs, block: seq<Byte>)
    requires |block| == 64
    ensures Rounds(r, block, 0) == r && Compress(r, block) == Plus(r, Rounds(r, block, 64))
  {
    hide Schedule, Round, Plus;
  }

  lemma Constants1()
    ensures KAt(0) == Words(0x428A2F98, 0x71374491, 0xB5C0FBCF, 0xE9B5DBA5,
                            0x3956C25B, 0x59F111F1, 0x923F82A4, 0xAB1C5ED5)
  {
  }

  lemma Constants2()
    ensures KAt(8) == Words(0xD807AA98, 0x12835B01, 0x243185BE, 0x550C7DC3,
                            0x72BE5D74, 0x80DEB1FE, 0x9BDC06A7, 0xC19BF174)
  {
  }

  lemma Constants3()
    ensures KAt(16) == Words(0xE49B69C1, 0xEFBE4786, 0x0FC19DC6, 0x240CA1CC,
                             0x2DE92C6F, 0x4A7484AA, 0x5CB0A9DC, 0x76F988DA)
  {
  }

  lemma Constants4()
    ensures KAt(24) == Words(0x983E5152, 0xA831C66D, 0xB00327C8, 0xBF597FC7,
                             0xC6E00BF3, 0xD5A79147, 0x06CA6351, 0x14292967)
  {
  }

  lemma Constants5()
    ensures KAt(32) == Words(0x27B70A85, 0x2E1B2138, 0x4D2C6DFC, 0x53380D13,
                             0x650A7354, 0x766A0ABB, 0x81C2C92E, 0x92722C85)
  {
  }

  lemma Constants6()
    ensures KAt(40) == Words(0xA2BFE8A1, 0xA81A664B, 0xC24B8B70, 0xC76C51A3,
                             0xD192E819, 0xD6990624, 0xF40E3585, 0x106AA070)
  {
  }

  lemma Constants7()
    ensures KAt(48) == Words(0x19A4C116, 0x1E376C08, 0x2748774C, 0x34B0BCB5,
                             0x391C0CB3, 0x4ED8AA4A, 0x5B9CCA4F, 0x682E6FF3)
  {
  }

  lemma Constants8()
    ensures KAt(56) == Words(0x748F82EE, 0x78A5636F, 0x84C87814, 0x8CC70208,
                             0x90BEFFFA, 0xA4506CEB, 0xBEF9A3F7, 0xC67178F2)
  {
  }

  lemma Start()
    ensures H0
            == Regs(0x6A09E667, 0xBB67AE85, 0x3C6EF372, 0xA54FF53A, 0x510E527F, 0x9B05688C, 0x1F83D9AB, 0x5BE0CD19)
  {
  }

  // ---------------------------------------------------------------- where the constants come from

  const TWO96: nat := TWO32 * TWO64

  /** k is the first 32 bits behind the point of the cube root of p (section 4.2.2). */
  predicate CubeRoot(p: nat, k: bv32) {
    exists whole: nat :: whole < 7 && CubeRootIs(p, TWO32 * whole + k as int)
  }

  predicate CubeRootIs(p: nat, x: nat) {
    x * x * x <= p * TWO96 < (x + 1) * (x + 1) * (x + 1)
  }

  /** The same for the square root (section 5.3.3). */
  predicate SquareRoot(p: nat, k: bv32) {
    exists whole: nat :: whole < 5 && SquareRootIs(p, TWO32 * whole + k as int)
  }

  predicate SquareRootIs(p: nat, x: nat) {
    x * x <= p * TWO64 < (x + 1) * (x + 1)
  }

  lemma CubeRoots1()
    ensures CubeRoot(2, K[0]) && CubeRoot(3, K[1]) && CubeRoot(5, K[2]) && CubeRoot(7, K[3])
    ensures CubeRoot(11, K[4]) && CubeRoot(13, K[5]) && CubeRoot(17, K[6]) && CubeRoot(19, K[7])
  {
    Constants1();
    assert CubeRootIs(2, TWO32 * 1 + 0x428A2F98);
    assert CubeRootIs(3, TWO32 * 1 + 0x71374491);
    assert CubeRootIs(5, TWO32 * 1 + 0xB5C0FBCF);
    assert CubeRootIs(7, TWO32 * 1 + 0xE9B5DBA5);
    assert CubeRootIs(11, TWO32 * 2 + 0x3956C25B);
    assert CubeRootIs(13, TWO32 * 2 + 0x59F111F1);
    assert CubeRootIs(17, TWO32 * 2 + 0x923F82A4);
    assert CubeRootIs(19, TWO32 * 2 + 0xAB1C5ED5);
  }

  lemma CubeRoots2()
    ensures CubeRoot(23, K[8]) && CubeRoot(29, K[9]) && CubeRoot(31, K[10]) && CubeRoot(37, K[11])
    ensures CubeRoot(41, K[12]) && CubeRoot(43, K[13]) && CubeRoot(47, K[14]) && CubeRoot(53, K[15])
  {
    Constants2();
    assert CubeRootIs(23, TWO32 * 2 + 0xD807AA98);
    assert CubeRootIs(29, TWO32 * 3 + 0x12835B01);
    assert CubeRootIs(31, TWO32 * 3 + 0x243185BE);
    assert CubeRootIs(37, TWO32 * 3 + 0x550C7DC3);
    assert CubeRootIs(41, TWO32 * 3 + 0x72BE5D74);
    assert CubeRootIs(43, TWO32 * 3 + 0x80DEB1FE);
    assert CubeRootIs(47, TWO32 * 3 + 0x9BDC06A7);
    assert CubeRootIs(53, TWO32 * 3 + 0xC19BF174);
  }

  lemma CubeRoots3()
    ensures CubeRoot(59, K[16]) && CubeRoot(61, K[17]) && CubeRoot(67, K[18]) && CubeRoot(71, K[19])
    ensures CubeRoot(73, K[20]) && CubeRoot(79, K[21]) && CubeRoot(83, K[22]) && CubeRoot(89, K[23])
  {
    Constants3();
    assert CubeRootIs(59, TWO32 * 3 + 0xE49B69C1);
    assert CubeRootIs(61, TWO32 * 3 + 0xEFBE4786);
    assert CubeRootIs(67, TWO32 * 4 + 0x0FC19DC6);
    assert CubeRootIs(71, TWO32 * 4 + 0x240CA1CC);
    assert CubeRootIs(73, TWO32 * 4 + 0x2DE92C6F);
    assert CubeRootIs(79, TWO32 * 4 + 0x4A7484AA);
    assert CubeRootIs(83, TWO32 * 4 + 0x5CB0A9DC);
    assert CubeRootIs(89, TWO32 * 4 + 0x76F988DA);
  }

  lemma CubeRoots4()
    ensures CubeRoot(97, K[24]) && CubeRoot(101, K[25]) && CubeRoot(103, K[26]) && CubeRoot(107, K[27])
    ensures CubeRoot(109, K[28]) && CubeRoot(113, K[29]) && CubeRoot(127, K[30]) && CubeRoot(131, K[31])
  {
    Constants4();
    assert CubeRootIs(97, TWO32 * 4 + 0x983E5152);
    assert CubeRootIs(101, TWO32 * 4 + 0xA831C66D);
    assert CubeRootIs(103, TWO32 * 4 + 0xB00327C8);
    assert CubeRootIs(107, TWO32 * 4 + 0xBF597FC7);
    assert CubeRootIs(109, TWO32 * 4 + 0xC6E00BF3);
    assert CubeRootIs(113, TWO32 * 4 + 0xD5A79147);
    assert CubeRootIs(127, TWO32 * 5 + 0x06CA6351);
    assert CubeRootIs(131, TWO32 * 5 + 0x14292967);
  }

  lemma CubeRoots5()
    ensures CubeRoot(137, K[32]) && CubeRoot(139, K[33]) && CubeRoot(149, K[34]) && CubeRoot(151, K[35])
    ensures CubeRoot(157, K[36]) && CubeRoot(163, K[37]) && CubeRoot(167, K[38]) && CubeRoot(173, K[39])
  {
    Constants5();
    assert CubeRootIs(137, TWO32 * 5 + 0x27B70A85);
    assert CubeRootIs(139, TWO32 * 5 + 0x2E1B2138);
    assert CubeRootIs(149, TWO32 * 5 + 0x4D2C6DFC);
    assert CubeRootIs(151, TWO32 * 5 + 0x53380D13);
    assert CubeRootIs(157, TWO32 * 5 + 0x650A7354);
    assert CubeRootIs(163, TWO32 * 5 + 0x766A0ABB);
    assert CubeRootIs(167, TWO32 * 5 + 0x81C2C92E);
    assert CubeRootIs(173, TWO32 * 5 + 0x92722C85);
  }

  lemma CubeRoots6()
    ensures CubeRoot(179, K[40]) && CubeRoot(181, K[41]) && CubeRoot(191, K[42]) && CubeRoot(193, K[43])
    ensures CubeRoot(197, K[44]) && CubeRoot(199, K[45]) && CubeRoot(211, K[46]) && CubeRoot(223, K[47])
  {
    Constants6();
    assert CubeRootIs(179, TWO32 * 5 + 0xA2BFE8A1);
    assert CubeRootIs(181, TWO32 * 5 + 0xA81A664B);
    assert CubeRootIs(191, TWO32 * 5 + 0xC24B8B70);
    assert CubeRootIs(193, TWO32 * 5 + 0xC76C51A3);
    assert CubeRootIs(197, TWO32 * 5 + 0xD192E819);
    assert CubeRootIs(199, TWO32 * 5 + 0xD6990624);
    assert CubeRootIs(211, TWO32 * 5 + 0xF40E3585);
    assert CubeRootIs(223, TWO32 * 6 + 0x106AA070);
  }

  lemma CubeRoots7()
    ensures CubeRoot(227, K[48]) && CubeRoot(229, K[49]) && CubeRoot(233, K[50]) && CubeRoot(239, K[51])
    ensures CubeRoot(241, K[52]) && CubeRoot(251, K[53]) && CubeRoot(257, K[54]) && CubeRoot(263, K[55])
  {
    Constants7();
    assert CubeRootIs(227, TWO32 * 6 + 0x19A4C116);
    assert CubeRootIs(229, TWO32 * 6 + 0x1E376C08);
    assert CubeRootIs(233, TWO32 * 6 + 0x2748774C);
    assert CubeRootIs(239, TWO32 * 6 + 0x34B0BCB5);
    assert CubeRootIs(241, TWO32 * 6 + 0x391C0CB3);
    assert CubeRootIs(251, TWO32 * 6 + 0x4ED8AA4A);
    assert CubeRootIs(257, TWO32 * 6 + 0x5B9CCA4F);
    assert CubeRootIs(263, TWO32 * 6 + 0x682E6FF3);
  }

  lemma CubeRoots8()
    ensures CubeRoot(269, K[56]) && CubeRoot(271, K[57]) && CubeRoot(277, K[58]) && CubeRoot(281, K[59])
    ensures CubeRoot(283, K[60]) && CubeRoot(293, K[61]) && CubeRoot(307, K[62]) && CubeRoot(311, K[63])
  {
    Constants8();
    assert CubeRootIs(269, TWO32 * 6 + 0x748F82EE);
    assert CubeRootIs(271, TWO32 * 6 + 0x78A5636F);
    assert CubeRootIs(277, TWO32 * 6 + 0x84C87814);
    assert CubeRootIs(281, TWO32 * 6 + 0x8CC70208);
    assert CubeRootIs(283, TWO32 * 6 + 0x90BEFFFA);
    assert CubeRootIs(293, TWO32 * 6 + 0xA4506CEB);
    assert CubeRootIs(307, TWO32 * 6 + 0xBEF9A3F7);
    assert CubeRootIs(311, TWO32 * 6 + 0xC67178F2);
  }

  lemma SquareRoots()
    ensures SquareRoot(2, H0.a) && SquareRoot(3, H0.b) && SquareRoot(5, H0.c) && SquareRoot(7, H0.d)
    ensures SquareRoot(11, H0.e) && SquareRoot(13, H0.f) && SquareRoot(17, H0.g) && SquareRoot(19, H0.h)
  {
    assert SquareRootIs(2, TWO32 * 1 + 0x6A09E667);
    assert SquareRootIs(3, TWO32 * 1 + 0xBB67AE85);
    assert SquareRootIs(5, TWO32 * 2 + 0x3C6EF372);
    assert SquareRootIs(7, TWO32 * 2 + 0xA54FF53A);
    assert SquareRootIs(11, TWO32 * 3 + 0x510E527F);
    assert SquareRootIs(13, TWO32 * 3 + 0x9B05688C);
    assert SquareRootIs(17, TWO32 * 4 + 0x1F83D9AB);
    assert SquareRootIs(19, TWO32 * 4 + 0x5BE0CD19);
  }

  // ---------------------------------------------------------------- from bytes to words and back

  lemma Four(s: seq<Byte>, n: nat)
    requires |s| == 4 && n == ((s[0] as int * 256 + s[1]) * 256 + s[2]) * 256 + s[3]
    ensures FromBE(s) == n
  {
    assert s[..3][..2] == s[..2] && s[..2][..1] == s[..1] && s[..1][..0] == [];
    assert FromBE(s[..1]) == s[0] && FromBE(s[..2]) == s[0] as int * 256 + s[1];
    assert FromBE(s[..3]) == (s[0] as int * 256 + s[1]) * 256 + s[2];
  }

  /** Four bytes of a block as a word. */
  lemma WordIs(block: seq<Byte>, i: nat, a: Byte, b: Byte, c: Byte, d: Byte, w: bv32)
    requires |block| == 64 && i < 16 && block[4 * i..4 * i + 4] == [a, b, c, d]
    requires w as int == ((a as int * 256 + b) * 256 + c) * 256 + d
    ensures Schedule(block, i) == w
  {
    Four([a, b, c, d], w as int);
  }

  /** A word as four bytes. */
  lemma Digits(w: bv32, a: Byte, b: Byte, c: Byte, d: Byte)
    requires w as int == ((a as int * 256 + b) * 256 + c) * 256 + d
    ensures BE(w as int, 4) == [a, b, c, d]
  {
    var s := [a, b, c, d];
    Four(s, w as int);
    hide BE, FromBE;
    BEOfFromBE(s);
  }

  /** Half of the digest. */
  function Half(a: bv32, b: bv32, c: bv32, d: bv32): seq<Byte> {
    BE(a as int, 4) + BE(b as int, 4) + BE(c as int, 4) + BE(d as int, 4)
  }

  lemma OutputIs(r: Regs)
    ensures Output(r) == Half(r.a, r.b, r.c, r.d) + Half(r.e, r.f, r.g, r.h)
  {
    hide BE;
  }

  /** A row of four bytes among others. */
  lemma {:induction false} RowAt(rows: seq<seq<Byte>>, i: nat)
    requires i < |rows| && forall j :: 0 <= j < |rows| ==> |rows[j]| == 4
    ensures |Joined(rows)| == 4 * |rows| && Joined(rows)[4 * i..4 * i + 4] == rows[i]
  {
    var rest := rows[1..];
    if |rows| == 1 {
      assert Joined(rows) == rows[0];
    } else {
      RowAt(rest, if i > 0 then i - 1 else 0);
      var tail := Joined(rest);
      hide Joined;
      assert (rows[0] + tail)[..4] == rows[0];
      if i > 0 {
        assert (rows[0] + tail)[4 * i..4 * i + 4] == tail[4 * (i - 1)..4 * (i - 1) + 4];
      }
    }
  }

  /** The block of the message abc. */
  lemma Abc(block: seq<Byte>)
    requires |block| == 64
    requires WordsAt(block, 0)
             == Words(0x61626380, 0x00000000, 0x00000000, 0x00000000, 0x00000000, 0x00000000, 0x00000000, 0x00000000)
    requires WordsAt(block, 8)
             == Words(0x00000000, 0x00000000, 0x00000000, 0x00000000, 0x00000000, 0x00000000, 0x00000000, 0x00000018)
    ensures Compress(H0, block)
            == Regs(0xBA7816BF, 0x8F01CFEA, 0x414140DE, 0x5DAE2223, 0xB00361A3, 0x96177A9C, 0xB410FF61, 0xF20015AD)
  {
    hide *;
    var start := Regs(0x6A09E667, 0xBB67AE85, 0x3C6EF372, 0xA54FF53A, 0x510E527F, 0x9B05688C, 0x1F83D9AB, 0x5BE0CD19);
    CompressIs(start, block);
    Start();
    EightMore(start, block, 0);
    Constants1();
    Abc1();
    EightMore(start, block, 8);
    Constants2();
    Abc2();
    EightMore(start, block, 16);
    Constants3();
    Abc3();
    EightMore(start, block, 24);
    Constants4();
    Abc4();
    EightMore(start, block, 32);
    Constants5();
    Abc5();
    EightMore(start, block, 40);
    Constants6();
    Abc6();
    EightMore(start, block, 48);
    Constants7();
    Abc7();
    EightMore(start, block, 56);
    Constants8();
    Abc8();
    AbcSum();
  }

  lemma Abc1()
    ensures NextWords(
              Words(0x61626380, 0x00000000, 0x00000000, 0x00000000, 0x00000000, 0x00000000, 0x00000000, 0x00000000),
              Words(0x00000000, 0x00000000, 0x00000000, 0x00000000, 0x00000000, 0x00000000, 0x00000000, 0x00000018))
            == Words(0x61626380, 0x000F0000, 0x7DA86405, 0x600003C6, 0x3E9D7B78, 0x0183FC00, 0x12DCBFDB, 0xE2E2C38E)
    ensures NextRegs(
              Regs(0x6A09E667, 0xBB67AE85, 0x3C6EF372, 0xA54FF53A, 0x510E527F, 0x9B05688C, 0x1F83D9AB, 0x5BE0CD19),
              Words(0x428A2F98, 0x71374491, 0xB5C0FBCF, 0xE9B5DBA5, 0x3956C25B, 0x59F111F1, 0x923F82A4, 0xAB1C5ED5),
              Words(0x61626380, 0x00000000, 0x00000000, 0x00000000, 0x00000000, 0x00000000, 0x00000000, 0x00000000))
            == Regs(0x85A07B5F, 0xE5030380, 0x2B4209F5, 0x04409A6A, 0x0C657A79, 0x9B27A401, 0x714260AD, 0x43ADA245)
  {
    var r0 := Regs(0x6A09E667, 0xBB67AE85, 0x3C6EF372, 0xA54FF53A, 0x510E527F, 0x9B05688C, 0x1F83D9AB, 0x5BE0CD19);
    var r1 := Step(r0, 0x428A2F98, 0x61626380, 0x5D6AEBCD, 0xFA2A4622);
    var r2 := Step(r1, 0x71374491, 0x00000000, 0x5A6AD9AD, 0x78CE7989);
    var r3 := Step(r2, 0xB5C0FBCF, 0x00000000, 0xC8C347A7, 0xF92939EB);
    var r4 := Step(r3, 0xE9B5DBA5, 0x00000000, 0xD550F666, 0x24E00850);
    var r5 := Step(r4, 0x3956C25B, 0x00000000, 0x04409A6A, 0x43ADA245);
    var r6 := Step(r5, 0x59F111F1, 0x00000000, 0x2B4209F5, 0x714260AD);
    var r7 := Step(r6, 0x923F82A4, 0x00000000, 0xE5030380, 0x9B27A401);
    var r8 := Step(r7, 0xAB1C5ED5, 0x00000000, 0x85A07B5F, 0x0C657A79);
    hide Round;
  }

  lemma Abc2()
    ensures NextWords(
              Words(0x00000000, 0x00000000, 0x00000000, 0x00000000, 0x00000000, 0x00000000, 0x00000000, 0x00000018),
              Words(0x61626380, 0x000F0000, 0x7DA86405, 0x600003C6, 0x3E9D7B78, 0x0183FC00, 0x12DCBFDB, 0xE2E2C38E))
            == Words(0xC8215C1A, 0xB73679A2, 0xE5BC3909, 0x32663C5B, 0x9D209D67, 0xEC8726CB, 0x702138A4, 0xD3B7973B)
    ensures NextRegs(
              Regs(0x85A07B5F, 0xE5030380, 0x2B4209F5, 0x04409A6A, 0x0C657A79, 0x9B27A401, 0x714260AD, 0x43ADA245),
              Words(0xD807AA98, 0x12835B01, 0x243185BE, 0x550C7DC3, 0x72BE5D74, 0x80DEB1FE, 0x9BDC06A7, 0xC19BF174),
              Words(0x00000000, 0x00000000, 0x00000000, 0x00000000, 0x00000000, 0x00000000, 0x00000000, 0x00000018))
            == Regs(0xB0FA238E, 0xC0645FDE, 0xD932EB16, 0x87912990, 0x07590DCD, 0x0B92F20C, 0x745A48DE, 0x1E578218)
  {
    var r0 := Regs(0x85A07B5F, 0xE5030380, 0x2B4209F5, 0x04409A6A, 0x0C657A79, 0x9B27A401, 0x714260AD, 0x43ADA245);
    var r1 := Step(r0, 0xD807AA98, 0x00000000, 0x8E04ECB9, 0x32CA2D8C);
    var r2 := Step(r1, 0x12835B01, 0x00000000, 0x8C87346B, 0x1CC92596);
    var r3 := Step(r2, 0x243185BE, 0x00000000, 0x4798A3F4, 0x436B23E8);
    var r4 := Step(r3, 0x550C7DC3, 0x00000000, 0xF71FC5A9, 0x816FD6E9);
    var r5 := Step(r4, 0x72BE5D74, 0x00000000, 0x87912990, 0x1E578218);
    var r6 := Step(r5, 0x80DEB1FE, 0x00000000, 0xD932EB16, 0x745A48DE);
    var r7 := Step(r6, 0x9BDC06A7, 0x00000000, 0xC0645FDE, 0x0B92F20C);
    var r8 := Step(r7, 0xC19BF174, 0x00000018, 0xB0FA238E, 0x07590DCD);
    hide Round;
  }

  lemma Abc3()
    ensures NextWords(
              Words(0x61626380, 0x000F0000, 0x7DA86405, 0x600003C6, 0x3E9D7B78, 0x0183FC00, 0x12DCBFDB, 0xE2E2C38E),
              Words(0xC8215C1A, 0xB73679A2, 0xE5BC3909, 0x32663C5B, 0x9D209D67, 0xEC8726CB, 0x702138A4, 0xD3B7973B))
            == Words(0x93F5997F, 0x3B68BA73, 0xAFF4FFC1, 0xF10A5C62, 0x0A8B3996, 0x72AF830A, 0x9409E33E, 0x24641522)
    ensures NextRegs(
              Regs(0xB0FA238E, 0xC0645FDE, 0xD932EB16, 0x87912990, 0x07590DCD, 0x0B92F20C, 0x745A48DE, 0x1E578218),
              Words(0xE49B69C1, 0xEFBE4786, 0x0FC19DC6, 0x240CA1CC, 0x2DE92C6F, 0x4A7484AA, 0x5CB0A9DC, 0x76F988DA),
              Words(0x61626380, 0x000F0000, 0x7DA86405, 0x600003C6, 0x3E9D7B78, 0x0183FC00, 0x12DCBFDB, 0xE2E2C38E))
            == Regs(0xC5D53D8D, 0xA7A3623F, 0xC2606D6D, 0x9DC68B63, 0xAA47C347, 0x49F5114A, 0xE1257970, 0x8ADA8930)
  {
    var r0 := Regs(0xB0FA238E, 0xC0645FDE, 0xD932EB16, 0x87912990, 0x07590DCD, 0x0B92F20C, 0x745A48DE, 0x1E578218);
    var r1 := Step(r0, 0xE49B69C1, 0x61626380, 0x21DA9A9B, 0x8034229C);
    var r2 := Step(r1, 0xEFBE4786, 0x000F0000, 0xC2FBD9D1, 0x846EE454);
    var r3 := Step(r2, 0x0FC19DC6, 0x7DA86405, 0xFE777BBF, 0xCC899961);
    var r4 := Step(r3, 0x240CA1CC, 0x600003C6, 0xE1F20C33, 0xB0638179);
    var r5 := Step(r4, 0x2DE92C6F, 0x3E9D7B78, 0x9DC68B63, 0x8ADA8930);
    var r6 := Step(r5, 0x4A7484AA, 0x0183FC00, 0xC2606D6D, 0xE1257970);
    var r7 := Step(r6, 0x5CB0A9DC, 0x12DCBFDB, 0xA7A3623F, 0x49F5114A);
    var r8 := Step(r7, 0x76F988DA, 0xE2E2C38E, 0xC5D53D8D, 0xAA47C347);
    hide Round;
  }

  lemma Abc4()
    ensures NextWords(
              Words(0xC8215C1A, 0xB73679A2, 0xE5BC3909, 0x32663C5B, 0x9D209D67, 0xEC8726CB, 0x702138A4, 0xD3B7973B),
              Words(0x93F5997F, 0x3B68BA73, 0xAFF4FFC1, 0xF10A5C62, 0x0A8B3996, 0x72AF830A, 0x9409E33E, 0x24641522))
            == Words(0x9F47BF94, 0xF0A64F5A, 0x3E246A79, 0x27333BA3, 0x0C4763F2, 0x840ABF27, 0x7A290D5D, 0x065C43DA)
    ensures NextRegs(
              Regs(0xC5D53D8D, 0xA7A3623F, 0xC2606D6D, 0x9DC68B63, 0xAA47C347, 0x49F5114A, 0xE1257970, 0x8ADA8930),
              Words(0x983E5152, 0xA831C66D, 0xB00327C8, 0xBF597FC7, 0xC6E00BF3, 0xD5A79147, 0x06CA6351, 0x14292967),
              Words(0xC8215C1A, 0xB73679A2, 0xE5BC3909, 0x32663C5B, 0x9D209D67, 0xEC8726CB, 0x702138A4, 0xD3B7973B))
            == Regs(0x73B33BF5, 0xEA992A22, 0xA0060B30, 0x363482C9, 0xBA591112, 0x0109AB3A, 0xADE79437, 0x6112A3B7)
  {
    var r0 := Regs(0xC5D53D8D, 0xA7A3623F, 0xC2606D6D, 0x9DC68B63, 0xAA47C347, 0x49F5114A, 0xE1257970, 0x8ADA8930);
    var r1 := Step(r0, 0x983E5152, 0xC8215C1A, 0x1C2C2838, 0x2823EF91);
    var r2 := Step(r1, 0xA831C66D, 0xB73679A2, 0xCDE8037D, 0x14383D8E);
    var r3 := Step(r2, 0xB00327C8, 0xE5BC3909, 0xB62EC4BC, 0xC74C6516);
    var r4 := Step(r3, 0xBF597FC7, 0x32663C5B, 0x77D37528, 0xEDFFBFF8);
    var r5 := Step(r4, 0xC6E00BF3, 0x9D209D67, 0x363482C9, 0x6112A3B7);
    var r6 := Step(r5, 0xD5A79147, 0xEC8726CB, 0xA0060B30, 0xADE79437);
    var r7 := Step(r6, 0x06CA6351, 0x702138A4, 0xEA992A22, 0x0109AB3A);
    var r8 := Step(r7, 0x14292967, 0xD3B7973B, 0x73B33BF5, 0xBA591112);
    hide Round;
  }

  lemma Abc5()
    ensures NextWords(
              Words(0x93F5997F, 0x3B68BA73, 0xAFF4FFC1, 0xF10A5C62, 0x0A8B3996, 0x72AF830A, 0x9409E33E, 0x24641522),
              Words(0x9F47BF94, 0xF0A64F5A, 0x3E246A79, 0x27333BA3, 0x0C4763F2, 0x840ABF27, 0x7A290D5D, 0x065C43DA))
            == Words(0xFB3E89CB, 0xCC7617DB, 0xB9E66C34, 0xA9993667, 0x84BADEDD, 0xC21462BC, 0x1487472C, 0xB20F7A99)
    ensures NextRegs(
              Regs(0x73B33BF5, 0xEA992A22, 0xA0060B30, 0x363482C9, 0xBA591112, 0x0109AB3A, 0xADE79437, 0x6112A3B7),
              Words(0x27B70A85, 0x2E1B2138, 0x4D2C6DFC, 0x53380D13, 0x650A7354, 0x766A0ABB, 0x81C2C92E, 0x92722C85),
              Words(0x93F5997F, 0x3B68BA73, 0xAFF4FFC1, 0xF10A5C62, 0x0A8B3996, 0x72AF830A, 0x9409E33E, 0x24641522))
            == Regs(0x79EA687A, 0x6DC57A8A, 0x34DF1604, 0x41A65CB1, 0x1EFBC0A0, 0xF0781BC8, 0xA507A53D, 0x0772A26B)
  {
    var r0 := Regs(0x73B33BF5, 0xEA992A22, 0xA0060B30, 0x363482C9, 0xBA591112, 0x0109AB3A, 0xADE79437, 0x6112A3B7);
    var r1 := Step(r0, 0x27B70A85, 0x93F5997F, 0x98E12507, 0x9CD9F5F6);
    var r2 := Step(r1, 0x2E1B2138, 0x3B68BA73, 0xFE604DF5, 0x59249DD3);
    var r3 := Step(r2, 0x4D2C6DFC, 0xAFF4FFC1, 0xA9A7738C, 0x085F3833);
    var r4 := Step(r3, 0x53380D13, 0xF10A5C62, 0x65A0CFE4, 0xF4B002D6);
    var r5 := Step(r4, 0x650A7354, 0x0A8B3996, 0x41A65CB1, 0x0772A26B);
    var r6 := Step(r5, 0x766A0ABB, 0x72AF830A, 0x34DF1604, 0xA507A53D);
    var r7 := Step(r6, 0x81C2C92E, 0x9409E33E, 0x6DC57A8A, 0xF0781BC8);
    var r8 := Step(r7, 0x92722C85, 0x24641522, 0x79EA687A, 0x1EFBC0A0);
    hide Round;
  }

  lemma Abc6()
    ensures NextWords(
              Words(0x9F47BF94, 0xF0A64F5A, 0x3E246A79, 0x27333BA3, 0x0C4763F2, 0x840ABF27, 0x7A290D5D, 0x065C43DA),
              Words(0xFB3E89CB, 0xCC7617DB, 0xB9E66C34, 0xA9993667, 0x84BADEDD, 0xC21462BC, 0x1487472C, 0xB20F7A99))
            == Words(0xEF57B9CD, 0xEBE6B238, 0x9FE3095E, 0x78BC8D4B, 0xA43FCF15, 0x668B2FF8, 0xEEABA2CC, 0x12B1EDEB)
    ensures NextRegs(
              Regs(0x79EA687A, 0x6DC57A8A, 0x34DF1604, 0x41A65CB1, 0x1EFBC0A0, 0xF0781BC8, 0xA507A53D, 0x0772A26B),
              Words(0xA2BFE8A1, 0xA81A664B, 0xC24B8B70, 0xC76C51A3, 0xD192E819, 0xD6990624, 0xF40E3585, 0x106AA070),
              Words(0x9F47BF94, 0xF0A64F5A, 0x3E246A79, 0x27333BA3, 0x0C4763F2, 0x840ABF27, 0x7A290D5D, 0x065C43DA))
            == Regs(0x4172328D, 0xA14C14B0, 0x72AB4B91, 0x26628815, 0xFECF0BC6, 0xD57B94A9, 0xB7755DA1, 0xA80F11F0)
  {
    var r0 := Regs(0x79EA687A, 0x6DC57A8A, 0x34DF1604, 0x41A65CB1, 0x1EFBC0A0, 0xF0781BC8, 0xA507A53D, 0x0772A26B);
    var r1 := Step(r0, 0xA2BFE8A1, 0x9F47BF94, 0xD6670766, 0x26352D63);
    var r2 := Step(r1, 0xA81A664B, 0xF0A64F5A, 0xDF46652F, 0x838B2711);
    var r3 := Step(r2, 0xC24B8B70, 0x3E246A79, 0x17AA0DFE, 0xDECD4715);
    var r4 := Step(r3, 0xC76C51A3, 0x27333BA3, 0x9D4BAF93, 0xFDA24C2E);
    var r5 := Step(r4, 0xD192E819, 0x0C4763F2, 0x26628815, 0xA80F11F0);
    var r6 := Step(r5, 0xD6990624, 0x840ABF27, 0x72AB4B91, 0xB7755DA1);
    var r7 := Step(r6, 0xF40E3585, 0x7A290D5D, 0xA14C14B0, 0xD57B94A9);
    var r8 := Step(r7, 0x106AA070, 0x065C43DA, 0x4172328D, 0xFECF0BC6);
    hide Round;
  }

  lemma Abc7()
    ensures NextRegs(
              Regs(0x4172328D, 0xA14C14B0, 0x72AB4B91, 0x26628815, 0xFECF0BC6, 0xD57B94A9, 0xB7755DA1, 0xA80F11F0),
              Words(0x19A4C116, 0x1E376C08, 0x2748774C, 0x34B0BCB5, 0x391C0CB3, 0x4ED8AA4A, 0x5B9CCA4F, 0x682E6FF3),
              Words(0xFB3E89CB, 0xCC7617DB, 0xB9E66C34, 0xA9993667, 0x84BADEDD, 0xC21462BC, 0x1487472C, 0xB20F7A99))
            == Regs(0x38CC9913, 0x3EC45CDB, 0xF5702FDB, 0x101FD28F, 0x54CB266B, 0xE50E1B4F, 0x9F4787C3, 0x529E7D00)
  {
    var r0 := Regs(0x4172328D, 0xA14C14B0, 0x72AB4B91, 0x26628815, 0xFECF0BC6, 0xD57B94A9, 0xB7755DA1, 0xA80F11F0);
    var r1 := Step(r0, 0x19A4C116, 0xFB3E89CB, 0x05757CEB, 0xBD714038);
    var r2 := Step(r1, 0x1E376C08, 0xCC7617DB, 0xF11BFAA8, 0x6E5C390C);
    var r3 := Step(r2, 0x2748774C, 0xB9E66C34, 0x7A0508A1, 0x52F1CCF7);
    var r4 := Step(r3, 0x34B0BCB5, 0xA9993667, 0x886E7A22, 0x49231C1E);
    var r5 := Step(r4, 0x391C0CB3, 0x84BADEDD, 0x101FD28F, 0x529E7D00);
    var r6 := Step(r5, 0x4ED8AA4A, 0xC21462BC, 0xF5702FDB, 0x9F4787C3);
    var r7 := Step(r6, 0x5B9CCA4F, 0x1487472C, 0x3EC45CDB, 0xE50E1B4F);
    var r8 := Step(r7, 0x682E6FF3, 0xB20F7A99, 0x38CC9913, 0x54CB266B);
    hide Round;
  }

  lemma Abc8()
    ensures NextRegs(
              Regs(0x38CC9913, 0x3EC45CDB, 0xF5702FDB, 0x101FD28F, 0x54CB266B, 0xE50E1B4F, 0x9F4787C3, 0x529E7D00),
              Words(0x748F82EE, 0x78A5636F, 0x84C87814, 0x8CC70208, 0x90BEFFFA, 0xA4506CEB, 0xBEF9A3F7, 0xC67178F2),
              Words(0xEF57B9CD, 0xEBE6B238, 0x9FE3095E, 0x78BC8D4B, 0xA43FCF15, 0x668B2FF8, 0xEEABA2CC, 0x12B1EDEB))
            == Regs(0x506E3058, 0xD39A2165, 0x04D24D6C, 0xB85E2CE9, 0x5EF50F24, 0xFB121210, 0x948D25B6, 0x961F4894)
  {
    var r0 := Regs(0x38CC9913, 0x3EC45CDB, 0xF5702FDB, 0x101FD28F, 0x54CB266B, 0xE50E1B4F, 0x9F4787C3, 0x529E7D00);
    var r1 := Step(r0, 0x748F82EE, 0xEF57B9CD, 0xFCD1887B, 0x9B5E906C);
    var r2 := Step(r1, 0x78A5636F, 0xEBE6B238, 0xC062D46F, 0x7E44008E);
    var r3 := Step(r2, 0x84C87814, 0x9FE3095E, 0xFFB70472, 0x6D83BFC6);
    var r4 := Step(r3, 0x8CC70208, 0x78BC8D4B, 0xB6AE8FFF, 0xB21BAD3D);
    var r5 := Step(r4, 0x90BEFFFA, 0xA43FCF15, 0xB85E2CE9, 0x961F4894);
    var r6 := Step(r5, 0xA4506CEB, 0x668B2FF8, 0x04D24D6C, 0x948D25B6);
    var r7 := Step(r6, 0xBEF9A3F7, 0xEEABA2CC, 0xD39A2165, 0xFB121210);
    var r8 := Step(r7, 0xC67178F2, 0x12B1EDEB, 0x506E3058, 0x5EF50F24);
    hide Round;
  }

  lemma AbcSum()
    ensures Plus(
              Regs(0x6A09E667, 0xBB67AE85, 0x3C6EF372, 0xA54FF53A, 0x510E527F, 0x9B05688C, 0x1F83D9AB, 0x5BE0CD19),
              Regs(0x506E3058, 0xD39A2165, 0x04D24D6C, 0xB85E2CE9, 0x5EF50F24, 0xFB121210, 0x948D25B6, 0x961F4894))
            == Regs(0xBA7816BF, 0x8F01CFEA, 0x414140DE, 0x5DAE2223, 0xB00361A3, 0x96177A9C, 0xB410FF61, 0xF20015AD)
  {
  }

  /** The first block of the message of 56 bytes. */
  lemma First(block: seq<Byte>)
    requires |block| == 64
    requires WordsAt(block, 0)
             == Words(0x61626364, 0x62636465, 0x63646566, 0x64656667, 0x65666768, 0x66676869, 0x6768696A, 0x68696A6B)
    requires WordsAt(block, 8)
             == Words(0x696A6B6C, 0x6A6B6C6D, 0x6B6C6D6E, 0x6C6D6E6F, 0x6D6E6F70, 0x6E6F7071, 0x80000000, 0x00000000)
    ensures Compress(H0, block)
            == Regs(0x85E655D6, 0x417A1795, 0x3363376A, 0x624CDE5C, 0x76E09589, 0xCAC5F811, 0xCC4B32C1, 0xF20E533A)
  {
    hide *;
    var start := Regs(0x6A09E667, 0xBB67AE85, 0x3C6EF372, 0xA54FF53A, 0x510E527F, 0x9B05688C, 0x1F83D9AB, 0x5BE0CD19);
    CompressIs(start, block);
    Start();
    EightMore(start, block, 0);
    Constants1();
    First1();
    EightMore(start, block, 8);
    Constants2();
    First2();
    EightMore(start, block, 16);
    Constants3();
    First3();
    EightMore(start, block, 24);
    Constants4();
    First4();
    EightMore(start, block, 32);
    Constants5();
    First5();
    EightMore(start, block, 40);
    Constants6();
    First6();
    EightMore(start, block, 48);
    Constants7();
    First7();
    EightMore(start, block, 56);
    Constants8();
    First8();
    FirstSum();
  }

  lemma First1()
    ensures NextWords(
              Words(0x61626364, 0x62636465, 0x63646566, 0x64656667, 0x65666768, 0x66676869, 0x6768696A, 0x68696A6B),
              Words(0x696A6B6C, 0x6A6B6C6D, 0x6B6C6D6E, 0x6C6D6E6F, 0x6D6E6F70, 0x6E6F7071, 0x80000000, 0x00000000))
            == Words(0xEB8012AD, 0xA7C3AE92, 0x76E93BA2, 0xBA42E743, 0x92A92204, 0xD847E75E, 0x9E160036, 0xB280A7CB)
    ensures NextRegs(
              Regs(0x6A09E667, 0xBB67AE85, 0x3C6EF372, 0xA54FF53A, 0x510E527F, 0x9B05688C, 0x1F83D9AB, 0x5BE0CD19),
              Words(0x428A2F98, 0x71374491, 0xB5C0FBCF, 0xE9B5DBA5, 0x3956C25B, 0x59F111F1, 0x923F82A4, 0xAB1C5ED5),
              Words(0x61626364, 0x62636465, 0x63646566, 0x64656667, 0x65666768, 0x66676869, 0x6768696A, 0x68696A6B))
            == Regs(0xD237E6DB, 0x485835B7, 0x55C8EF48, 0xF921C212, 0xA401D211, 0x39A5B2CA, 0x7FF91C94, 0x05C4F88A)
  {
    var r0 := Regs(0x6A09E667, 0xBB67AE85, 0x3C6EF372, 0xA54FF53A, 0x510E527F, 0x9B05688C, 0x1F83D9AB, 0x5BE0CD19);
    var r1 := Step(r0, 0x428A2F98, 0x61626364, 0x5D6AEBB1, 0xFA2A4606);
    var r2 := Step(r1, 0x71374491, 0x62636465, 0x2F2D5FCF, 0x4EB1CFCE);
    var r3 := Step(r2, 0xB5C0FBCF, 0x63646566, 0x97651825, 0x62D5C49E);
    var r4 := Step(r3, 0xE9B5DBA5, 0x64656667, 0x4A8D64D5, 0x6494841B);
    var r5 := Step(r4, 0x3956C25B, 0x65666768, 0xF921C212, 0x05C4F88A);
    var r6 := Step(r5, 0x59F111F1, 0x66676869, 0x55C8EF48, 0x7FF91C94);
    var r7 := Step(r6, 0x923F82A4, 0x6768696A, 0x485835B7, 0x39A5B2CA);
    var r8 := Step(r7, 0xAB1C5ED5, 0x68696A6B, 0xD237E6DB, 0xA401D211);
    hide Round;
  }

  lemma First2()
    ensures NextWords(
              Words(0x696A6B6C, 0x6A6B6C6D, 0x6B6C6D6E, 0x6C6D6E6F, 0x6D6E6F70, 0x6E6F7071, 0x80000000, 0x00000000),
              Words(0xEB8012AD, 0xA7C3AE92, 0x76E93BA2, 0xBA42E743, 0x92A92204, 0xD847E75E, 0x9E160036, 0xB280A7CB))
            == Words(0xDDEB1516, 0xF36586F4, 0x969CD048, 0xE959D99D, 0x6ACCC0EC, 0xF54CB098, 0x2AF1B2DA, 0xEE59C4C9)
    ensures NextRegs(
              Regs(0xD237E6DB, 0x485835B7, 0x55C8EF48, 0xF921C212, 0xA401D211, 0x39A5B2CA, 0x7FF91C94, 0x05C4F88A),
              Words(0xD807AA98, 0x12835B01, 0x243185BE, 0x550C7DC3, 0x72BE5D74, 0x80DEB1FE, 0x9BDC06A7, 0xC19BF174),
              Words(0x696A6B6C, 0x6A6B6C6D, 0x6B6C6D6E, 0x6C6D6E6F, 0x6D6E6F70, 0x6E6F7071, 0x80000000, 0x00000000))
            == Regs(0xC3486194, 0xDD16CBB3, 0xD68E6457, 0x101A4861, 0x1496A54F, 0x9162ADED, 0x9243F8AF, 0x839A0FC9)
  {
    var r0 := Regs(0xD237E6DB, 0x485835B7, 0x55C8EF48, 0xF921C212, 0xA401D211, 0x39A5B2CA, 0x7FF91C94, 0x05C4F88A);
    var r1 := Step(r0, 0xD807AA98, 0x696A6B6C, 0x359F2BCE, 0xC09FFEC4);
    var r2 := Step(r1, 0x12835B01, 0x6A6B6C6D, 0x3A474B2B, 0x9037B3B8);
    var r3 := Step(r2, 0x243185BE, 0x6B6C6D6E, 0xB8E2B4CB, 0x443ED29E);
    var r4 := Step(r3, 0x550C7DC3, 0x6C6D6E6F, 0x1762215C, 0xEE1C97A8);
    var r5 := Step(r4, 0x72BE5D74, 0x6D6E6F70, 0x101A4861, 0x839A0FC9);
    var r6 := Step(r5, 0x80DEB1FE, 0x6E6F7071, 0xD68E6457, 0x9243F8AF);
    var r7 := Step(r6, 0x9BDC06A7, 0x80000000, 0xDD16CBB3, 0x9162ADED);
    var r8 := Step(r7, 0xC19BF174, 0x00000000, 0xC3486194, 0x1496A54F);
    hide Round;
  }

  lemma First3()
    ensures NextWords(
              Words(0xEB8012AD, 0xA7C3AE92, 0x76E93BA2, 0xBA42E743, 0x92A92204, 0xD847E75E, 0x9E160036, 0xB280A7CB),
              Words(0xDDEB1516, 0xF36586F4, 0x969CD048, 0xE959D99D, 0x6ACCC0EC, 0xF54CB098, 0x2AF1B2DA, 0xEE59C4C9))
            == Words(0xA835E16A, 0x1DFF4429, 0xD6E15959, 0xC397CD6E, 0x6F1801CA, 0x21574205, 0x35FF7A84, 0x9743EE78)
    ensures NextRegs(
              Regs(0xC3486194, 0xDD16CBB3, 0xD68E6457, 0x101A4861, 0x1496A54F, 0x9162ADED, 0x9243F8AF, 0x839A0FC9),
              Words(0xE49B69C1, 0xEFBE4786, 0x0FC19DC6, 0x240CA1CC, 0x2DE92C6F, 0x4A7484AA, 0x5CB0A9DC, 0x76F988DA),
              Words(0xEB8012AD, 0xA7C3AE92, 0x76E93BA2, 0xBA42E743, 0x92A92204, 0xD847E75E, 0x9E160036, 0xB280A7CB))
            == Regs(0x59FCE6B9, 0xAE2E2D4F, 0x1B2B66B8, 0xD70AC17D, 0xA2C7D51D, 0xF074FC95, 0xD560B028, 0x7CC6B262)
  {
    var r0 := Regs(0xC3486194, 0xDD16CBB3, 0xD68E6457, 0x101A4861, 0x1496A54F, 0x9162ADED, 0x9243F8AF, 0x839A0FC9);
    var r1 := Step(r0, 0xE49B69C1, 0xEB8012AD, 0xB9DCACB1, 0xD4F64250);
    var r2 := Step(r1, 0xEFBE4786, 0xA7C3AE92, 0x046A193E, 0x885370B6);
    var r3 := Step(r2, 0x0FC19DC6, 0x76E93BA2, 0xF402F058, 0x6F433549);
    var r4 := Step(r3, 0x240CA1CC, 0xBA42E743, 0x2139187B, 0x7C304206);
    var r5 := Step(r4, 0x2DE92C6F, 0x92A92204, 0xD70AC17D, 0x7CC6B262);
    var r6 := Step(r5, 0x4A7484AA, 0xD847E75E, 0x1B2B66B8, 0xD560B028);
    var r7 := Step(r6, 0x5CB0A9DC, 0x9E160036, 0xAE2E2D4F, 0xF074FC95);
    var r8 := Step(r7, 0x76F988DA, 0xB280A7CB, 0x59FCE6B9, 0xA2C7D51D);
    hide Round;
  }

  lemma First4()
    ensures NextWords(
              Words(0xDDEB1516, 0xF36586F4, 0x969CD048, 0xE959D99D, 0x6ACCC0EC, 0xF54CB098, 0x2AF1B2DA, 0xEE59C4C9),
              Words(0xA835E16A, 0x1DFF4429, 0xD6E15959, 0xC397CD6E, 0x6F1801CA, 0x21574205, 0x35FF7A84, 0x9743EE78))
            == Words(0xE44183E7, 0x0D09F00D, 0x9C89AF54, 0x042D5BEF, 0x71F134D0, 0x0F94F463, 0x7E49DC63, 0x6F65C997)
    ensures NextRegs(
              Regs(0x59FCE6B9, 0xAE2E2D4F, 0x1B2B66B8, 0xD70AC17D, 0xA2C7D51D, 0xF074FC95, 0xD560B028, 0x7CC6B262),
              Words(0x983E5152, 0xA831C66D, 0xB00327C8, 0xBF597FC7, 0xC6E00BF3, 0xD5A79147, 0x06CA6351, 0x14292967),
              Words(0xDDEB1516, 0xF36586F4, 0x969CD048, 0xE959D99D, 0x6ACCC0EC, 0xF54CB098, 0x2AF1B2DA, 0xEE59C4C9))
            == Regs(0x5581AB07, 0xEB43F3ED, 0xDF7151A0, 0x74BCF468, 0xDF980085, 0x0635D880, 0x7629C961, 0x72ABAECD)
  {
    var r0 := Regs(0x59FCE6B9, 0xAE2E2D4F, 0x1B2B66B8, 0xD70AC17D, 0xA2C7D51D, 0xF074FC95, 0xD560B028, 0x7CC6B262);
    var r1 := Step(r0, 0x983E5152, 0xDDEB1516, 0x4A885065, 0x763597FB);
    var r2 := Step(r1, 0xA831C66D, 0xF36586F4, 0x573221DA, 0x36E74EB4);
    var r3 := Step(r2, 0xB00327C8, 0x969CD048, 0x128661DA, 0x1162D575);
    var r4 := Step(r3, 0xBF597FC7, 0xE959D99D, 0x73F858AF, 0xE77C797F);
    var r5 := Step(r4, 0xC6E00BF3, 0x6ACCC0EC, 0x74BCF468, 0x72ABAECD);
    var r6 := Step(r5, 0xD5A79147, 0xF54CB098, 0xDF7151A0, 0x7629C961);
    var r7 := Step(r6, 0x06CA6351, 0x2AF1B2DA, 0xEB43F3ED, 0x0635D880);
    var r8 := Step(r7, 0x14292967, 0xEE59C4C9, 0x5581AB07, 0xDF980085);
    hide Round;
  }

  lemma First5()
    ensures NextWords(
              Words(0xA835E16A, 0x1DFF4429, 0xD6E15959, 0xC397CD6E, 0x6F1801CA, 0x21574205, 0x35FF7A84, 0x9743EE78),
              Words(0xE44183E7, 0x0D09F00D, 0x9C89AF54, 0x042D5BEF, 0x71F134D0, 0x0F94F463, 0x7E49DC63, 0x6F65C997))
            == Words(0x0B706583, 0x179312CA, 0x503054E9, 0xBA125C39, 0x7E9392C9, 0xD5CBAA1E, 0x78E0585D, 0xF6E7611C)
    ensures NextRegs(
              Regs(0x5581AB07, 0xEB43F3ED, 0xDF7151A0, 0x74BCF468, 0xDF980085, 0x0635D880, 0x7629C961, 0x72ABAECD),
              Words(0x27B70A85, 0x2E1B2138, 0x4D2C6DFC, 0x53380D13, 0x650A7354, 0x766A0ABB, 0x81C2C92E, 0x92722C85),
              Words(0xA835E16A, 0x1DFF4429, 0xD6E15959, 0xC397CD6E, 0x6F1801CA, 0x21574205, 0x35FF7A84, 0x9743EE78))
            == Regs(0x7E4D30B8, 0x91AC9D5D, 0xA985B4BE, 0x2C55D3A6, 0x9F5B9B6D, 0x68D8D590, 0xF72BF353, 0xB067C1AF)
  {
    var r0 := Regs(0x5581AB07, 0xEB43F3ED, 0xDF7151A0, 0x74BCF468, 0xDF980085, 0x0635D880, 0x7629C961, 0x72ABAECD);
    var r1 := Step(r0, 0x27B70A85, 0xA835E16A, 0x9FC905C8, 0xA94D2AF1);
    var r2 := Step(r1, 0x2E1B2138, 0x1DFF4429, 0x9CE5A62F, 0x6EF3B6BD);
    var r3 := Step(r2, 0x4D2C6DFC, 0xD6E15959, 0x1DF8E885, 0x2A9E048E);
    var r4 := Step(r3, 0x53380D13, 0xC397CD6E, 0x0786DCE8, 0xDE2A21D1);
    var r5 := Step(r4, 0x650A7354, 0x6F1801CA, 0x2C55D3A6, 0xB067C1AF);
    var r6 := Step(r5, 0x766A0ABB, 0x21574205, 0xA985B4BE, 0xF72BF353);
    var r7 := Step(r6, 0x81C2C92E, 0x35FF7A84, 0x91AC9D5D, 0x68D8D590);
    var r8 := Step(r7, 0x92722C85, 0x9743EE78, 0x7E4D30B8, 0x9F5B9B6D);
    hide Round;
  }

  lemma First6()
    ensures NextWords(
              Words(0xE44183E7, 0x0D09F00D, 0x9C89AF54, 0x042D5BEF, 0x71F134D0, 0x0F94F463, 0x7E49DC63, 0x6F65C997),
              Words(0x0B706583, 0x179312CA, 0x503054E9, 0xBA125C39, 0x7E9392C9, 0xD5CBAA1E, 0x78E0585D, 0xF6E7611C))
            == Words(0x8AC830CE, 0x8B47A303, 0xFD6E627F, 0x8C6E2C6A, 0x4001ADF1, 0x1A3DD097, 0xA9DF6F62, 0x6AA60A39)
    ensures NextRegs(
              Regs(0x7E4D30B8, 0x91AC9D5D, 0xA985B4BE, 0x2C55D3A6, 0x9F5B9B6D, 0x68D8D590, 0xF72BF353, 0xB067C1AF),
              Words(0xA2BFE8A1, 0xA81A664B, 0xC24B8B70, 0xC76C51A3, 0xD192E819, 0xD6990624, 0xF40E3585, 0x106AA070),
              Words(0xE44183E7, 0x0D09F00D, 0x9C89AF54, 0x042D5BEF, 0x71F134D0, 0x0F94F463, 0x7E49DC63, 0x6F65C997))
            == Regs(0x13D82741, 0x165BE9CD, 0x18F0D19D, 0xDE71E2F2, 0xA7802A4D, 0xA483F080, 0x6B88472C, 0xFF61C636)
  {
    var r0 := Regs(0x7E4D30B8, 0x91AC9D5D, 0xA985B4BE, 0x2C55D3A6, 0x9F5B9B6D, 0x68D8D590, 0xF72BF353, 0xB067C1AF);
    var r1 := Step(r0, 0xA2BFE8A1, 0xE44183E7, 0x7E056794, 0x423B26C0);
    var r2 := Step(r1, 0xA81A664B, 0x0D09F00D, 0x508A16AB, 0x45459D97);
    var r3 := Step(r2, 0xC24B8B70, 0x9C89AF54, 0xB62C7013, 0x80A92A00);
    var r4 := Step(r3, 0xC76C51A3, 0x042D5BEF, 0x167361DE, 0x41DD3844);
    var r5 := Step(r4, 0xD192E819, 0x71F134D0, 0xDE71E2F2, 0xFF61C636);
    var r6 := Step(r5, 0xD6990624, 0x0F94F463, 0x18F0D19D, 0x6B88472C);
    var r7 := Step(r6, 0xF40E3585, 0x7E49DC63, 0x165BE9CD, 0xA483F080);
    var r8 := Step(r7, 0x106AA070, 0x6F65C997, 0x13D82741, 0xA7802A4D);
    hide Round;
  }

  lemma First7()
    ensures NextRegs(
              Regs(0x13D82741, 0x165BE9CD, 0x18F0D19D, 0xDE71E2F2, 0xA7802A4D, 0xA483F080, 0x6B88472C, 0xFF61C636),
              Words(0x19A4C116, 0x1E376C08, 0x2748774C, 0x34B0BCB5, 0x391C0CB3, 0x4ED8AA4A, 0x5B9CCA4F, 0x682E6FF3),
              Words(0x0B706583, 0x179312CA, 0x503054E9, 0xBA125C39, 0x7E9392C9, 0xD5CBAA1E, 0x78E0585D, 0xF6E7611C))
            == Regs(0x9E57C4A0, 0xF907B313, 0x1D6DE87A, 0xB8D55619, 0xEEC13548, 0x61A41711, 0x3443BED4, 0x1C806A61)
  {
    var r0 := Regs(0x13D82741, 0x165BE9CD, 0x18F0D19D, 0xDE71E2F2, 0xA7802A4D, 0xA483F080, 0x6B88472C, 0xFF61C636);
    var r1 := Step(r0, 0x19A4C116, 0x0B706583, 0x017B9D99, 0xAEB10B60);
    var r2 := Step(r1, 0x1E376C08, 0x179312CA, 0x543C99A1, 0x16F134B6);
    var r3 := Step(r2, 0x2748774C, 0x503054E9, 0x758CA97A, 0x100CF2EA);
    var r4 := Step(r3, 0x34B0BCB5, 0xBA125C39, 0x81C1CDE0, 0x5C47EB7B);
    var r5 := Step(r4, 0x391C0CB3, 0x7E9392C9, 0xB8D55619, 0x1C806A61);
    var r6 := Step(r5, 0x4ED8AA4A, 0xD5CBAA1E, 0x1D6DE87A, 0x3443BED4);
    var r7 := Step(r6, 0x5B9CCA4F, 0x78E0585D, 0xF907B313, 0x61A41711);
    var r8 := Step(r7, 0x682E6FF3, 0xF6E7611C, 0x9E57C4A0, 0xEEC13548);
    hide Round;
  }

  lemma First8()
    ensures NextRegs(
              Regs(0x9E57C4A0, 0xF907B313, 0x1D6DE87A, 0xB8D55619, 0xEEC13548, 0x61A41711, 0x3443BED4, 0x1C806A61),
              Words(0x748F82EE, 0x78A5636F, 0x84C87814, 0x8CC70208, 0x90BEFFFA, 0xA4506CEB, 0xBEF9A3F7, 0xC67178F2),
              Words(0x8AC830CE, 0x8B47A303, 0xFD6E627F, 0x8C6E2C6A, 0x4001ADF1, 0x1A3DD097, 0xA9DF6F62, 0x6AA60A39))
            == Regs(0x1BDC6F6F, 0x86126910, 0xF6F443F8, 0xBCFCE922, 0x25D2430A, 0x2FC08F85, 0xACC75916, 0x962D8621)
  {
    var r0 := Regs(0x9E57C4A0, 0xF907B313, 0x1D6DE87A, 0xB8D55619, 0xEEC13548, 0x61A41711, 0x3443BED4, 0x1C806A61);
    var r1 := Step(r0, 0x748F82EE, 0x8AC830CE, 0x71629856, 0x2F6C8C4E);
    var r2 := Step(r1, 0x78A5636F, 0x8B47A303, 0x7C015A2C, 0xCB9D3DD0);
    var r3 := Step(r2, 0x84C87814, 0xFD6E627F, 0x921FCCB6, 0x43D8A034);
    var r4 := Step(r3, 0x8CC70208, 0x8C6E2C6A, 0xE18F259A, 0x51E15869);
    var r5 := Step(r4, 0x90BEFFFA, 0x4001ADF1, 0xBCFCE922, 0x962D8621);
    var r6 := Step(r5, 0xA4506CEB, 0x1A3DD097, 0xF6F443F8, 0xACC75916);
    var r7 := Step(r6, 0xBEF9A3F7, 0xA9DF6F62, 0x86126910, 0x2FC08F85);
    var r8 := Step(r7, 0xC67178F2, 0x6AA60A39, 0x1BDC6F6F, 0x25D2430A);
    hide Round;
  }

  lemma FirstSum()
    ensures Plus(
              Regs(0x6A09E667, 0xBB67AE85, 0x3C6EF372, 0xA54FF53A, 0x510E527F, 0x9B05688C, 0x1F83D9AB, 0x5BE0CD19),
              Regs(0x1BDC6F6F, 0x86126910, 0xF6F443F8, 0xBCFCE922, 0x25D2430A, 0x2FC08F85, 0xACC75916, 0x962D8621))
            == Regs(0x85E655D6, 0x417A1795, 0x3363376A, 0x624CDE5C, 0x76E09589, 0xCAC5F811, 0xCC4B32C1, 0xF20E533A)
  {
  }

  /** Its second block. */
  lemma Second(block: seq<Byte>)
    requires |block| == 64
    requires WordsAt(block, 0)
             == Words(0x00000000, 0x00000000, 0x00000000, 0x00000000, 0x00000000, 0x00000000, 0x00000000, 0x00000000)
    requires WordsAt(block, 8)
             == Words(0x00000000, 0x00000000, 0x00000000, 0x00000000, 0x00000000, 0x00000000, 0x00000000, 0x000001C0)
    ensures Compress(
              Regs(0x85E655D6, 0x417A1795, 0x3363376A, 0x624CDE5C, 0x76E09589, 0xCAC5F811, 0xCC4B32C1, 0xF20E533A),
              block)
            == Regs(0x248D6A61, 0xD20638B8, 0xE5C02693, 0x0C3E6039, 0xA33CE459, 0x64FF2167, 0xF6ECEDD4, 0x19DB06C1)
  {
    hide *;
    var start := Regs(0x85E655D6, 0x417A1795, 0x3363376A, 0x624CDE5C, 0x76E09589, 0xCAC5F811, 0xCC4B32C1, 0xF20E533A);
    CompressIs(start, block);
    EightMore(start, block, 0);
    Constants1();
    Second1();
    EightMore(start, block, 8);
    Constants2();
    Second2();
    EightMore(start, block, 16);
    Constants3();
    Second3();
    EightMore(start, block, 24);
    Constants4();
    Second4();
    EightMore(start, block, 32);
    Constants5();
    Second5();
    EightMore(start, block, 40);
    Constants6();
    Second6();
    EightMore(start, block, 48);
    Constants7();
    Second7();
    EightMore(start, block, 56);
    Constants8();
    Second8();
    SecondSum();
  }

  lemma Second1()
    ensures NextWords(
              Words(0x00000000, 0x00000000, 0x00000000, 0x00000000, 0x00000000, 0x00000000, 0x00000000, 0x00000000),
              Words(0x00000000, 0x00000000, 0x00000000, 0x00000000, 0x00000000, 0x00000000, 0x00000000, 0x000001C0))
            == Words(0x00000000, 0x00D80000, 0x00000000, 0x00003677, 0x00000000, 0x1DF5600D, 0x000001C0, 0x1C00501C)
    ensures NextRegs(
              Regs(0x85E655D6, 0x417A1795, 0x3363376A, 0x624CDE5C, 0x76E09589, 0xCAC5F811, 0xCC4B32C1, 0xF20E533A),
              Words(0x428A2F98, 0x71374491, 0xB5C0FBCF, 0xE9B5DBA5, 0x3956C25B, 0x59F111F1, 0x923F82A4, 0xAB1C5ED5),
              Words(0x00000000, 0x00000000, 0x00000000, 0x00000000, 0x00000000, 0x00000000, 0x00000000, 0x00000000))
            == Regs(0xBF9A93A0, 0x89BBA3F1, 0x3EEB6C06, 0x185A5D79, 0x059ABDD1, 0x0A34DF03, 0xFE20CDA6, 0x8DFF3001)
  {
    var r0 := Regs(0x85E655D6, 0x417A1795, 0x3363376A, 0x624CDE5C, 0x76E09589, 0xCAC5F811, 0xCC4B32C1, 0xF20E533A);
    var r1 := Step(r0, 0x428A2F98, 0x00000000, 0x7C20C838, 0x4670AE6E);
    var r2 := Step(r1, 0x71374491, 0x00000000, 0x7C3C0F86, 0x8C51BE64);
    var r3 := Step(r2, 0xB5C0FBCF, 0x00000000, 0xFD1EEBDC, 0xAF71B9EA);
    var r4 := Step(r3, 0xE9B5DBA5, 0x00000000, 0xF268FAA9, 0xE20362EF);
    var r5 := Step(r4, 0x3956C25B, 0x00000000, 0x185A5D79, 0x8DFF3001);
    var r6 := Step(r5, 0x59F111F1, 0x00000000, 0x3EEB6C06, 0xFE20CDA6);
    var r7 := Step(r6, 0x923F82A4, 0x00000000, 0x89BBA3F1, 0x0A34DF03);
    var r8 := Step(r7, 0xAB1C5ED5, 0x00000000, 0xBF9A93A0, 0x059ABDD1);
    hide Round;
  }

  lemma Second2()
    ensures NextWords(
              Words(0x00000000, 0x00000000, 0x00000000, 0x00000000, 0x00000000, 0x00000000, 0x00000000, 0x000001C0),
              Words(0x00000000, 0x00D80000, 0x00000000, 0x00003677, 0x00000000, 0x1DF5600D, 0x000001C0, 0x1C00501C))
            == Words(0x01B00000, 0x220A8D94, 0x0000A365, 0x177017E7, 0x63D38035, 0x090AB713, 0x4C7539CA, 0x0F19A8C9)
    ensures NextRegs(
              Regs(0xBF9A93A0, 0x89BBA3F1, 0x3EEB6C06, 0x185A5D79, 0x059ABDD1, 0x0A34DF03, 0xFE20CDA6, 0x8DFF3001),
              Words(0xD807AA98, 0x12835B01, 0x243185BE, 0x550C7DC3, 0x72BE5D74, 0x80DEB1FE, 0x9BDC06A7, 0xC19BF174),
              Words(0x00000000, 0x00000000, 0x00000000, 0x00000000, 0x00000000, 0x00000000, 0x00000000, 0x000001C0))
            == Regs(0x16A8CC79, 0x0CEA5CBC, 0xD74080FA, 0x35EE996D, 0x0FCB1F6F, 0x60356548, 0x68AA893F, 0x5C24E2A2)
  {
    var r0 := Regs(0xBF9A93A0, 0x89BBA3F1, 0x3EEB6C06, 0x185A5D79, 0x059ABDD1, 0x0A34DF03, 0xFE20CDA6, 0x8DFF3001);
    var r1 := Step(r0, 0xD807AA98, 0x00000000, 0x2C096744, 0xABFA465B);
    var r2 := Step(r1, 0x12835B01, 0x00000000, 0x2D964E86, 0xAA27ED82);
    var r3 := Step(r2, 0x243185BE, 0x00000000, 0x5B35025B, 0x10E77723);
    var r4 := Step(r3, 0x550C7DC3, 0x00000000, 0x5EB4EC40, 0xE11B4548);
    var r5 := Step(r4, 0x72BE5D74, 0x00000000, 0x35EE996D, 0x5C24E2A2);
    var r6 := Step(r5, 0x80DEB1FE, 0x00000000, 0xD74080FA, 0x68AA893F);
    var r7 := Step(r6, 0x9BDC06A7, 0x00000000, 0x0CEA5CBC, 0x60356548);
    var r8 := Step(r7, 0xC19BF174, 0x000001C0, 0x16A8CC79, 0x0FCB1F6F);
    hide Round;
  }

  lemma Second3()
    ensures NextWords(
              Words(0x00000000, 0x00D80000, 0x00000000, 0x00003677, 0x00000000, 0x1DF5600D, 0x000001C0, 0x1C00501C),
              Words(0x01B00000, 0x220A8D94, 0x0000A365, 0x177017E7, 0x63D38035, 0x090AB713, 0x4C7539CA, 0x0F19A8C9))
            == Words(0x5DF4B0C4, 0xE257036A, 0xC97BB6F1, 0xC5B46F4D, 0xF8253C4E, 0xA558D189, 0x78696285, 0xED07117F)
    ensures NextRegs(
              Regs(0x16A8CC79, 0x0CEA5CBC, 0xD74080FA, 0x35EE996D, 0x0FCB1F6F, 0x60356548, 0x68AA893F, 0x5C24E2A2),
              Words(0xE49B69C1, 0xEFBE4786, 0x0FC19DC6, 0x240CA1CC, 0x2DE92C6F, 0x4A7484AA, 0x5CB0A9DC, 0x76F988DA),
              Words(0x00000000, 0x00D80000, 0x00000000, 0x00003677, 0x00000000, 0x1DF5600D, 0x000001C0, 0x1C00501C))
            == Regs(0xA4195B91, 0xF13AE55B, 0xD44DC81A, 0x20AAD899, 0xEDDBD6ED, 0x966AA287, 0x5BACE62D, 0xCC4769F2)
  {
    var r0 := Regs(0x16A8CC79, 0x0CEA5CBC, 0xD74080FA, 0x35EE996D, 0x0FCB1F6F, 0x60356548, 0x68AA893F, 0x5C24E2A2);
    var r1 := Step(r0, 0xE49B69C1, 0x00000000, 0xF16F634E, 0x8B21CDC1);
    var r2 := Step(r1, 0xEFBE4786, 0x00D80000, 0x23DCB6C2, 0xCA9182D3);
    var r3 := Step(r2, 0x0FC19DC6, 0x00000000, 0xDCFF40FD, 0x69BF7B95);
    var r4 := Step(r3, 0x240CA1CC, 0x00003677, 0x76F1A2BC, 0x0DC84BB1);
    var r5 := Step(r4, 0x2DE92C6F, 0x00000000, 0x20AAD899, 0xCC4769F2);
    var r6 := Step(r5, 0x4A7484AA, 0x1DF5600D, 0xD44DC81A, 0x5BACE62D);
    var r7 := Step(r6, 0x5CB0A9DC, 0x000001C0, 0xF13AE55B, 0x966AA287);
    var r8 := Step(r7, 0x76F988DA, 0x1C00501C, 0xA4195B91, 0xEDDBD6ED);
    hide Round;
  }

  lemma Second4()
    ensures NextWords(
              Words(0x01B00000, 0x220A8D94, 0x0000A365, 0x177017E7, 0x63D38035, 0x090AB713, 0x4C7539CA, 0x0F19A8C9),
              Words(0x5DF4B0C4, 0xE257036A, 0xC97BB6F1, 0xC5B46F4D, 0xF8253C4E, 0xA558D189, 0x78696285, 0xED07117F))
            == Words(0x107358F6, 0x390AE496, 0x565010A2, 0xC51D7D44, 0x9E74C972, 0x6614B561, 0x30FC129D, 0x9AC684A8)
    ensures NextRegs(
              Regs(0xA4195B91, 0xF13AE55B, 0xD44DC81A, 0x20AAD899, 0xEDDBD6ED, 0x966AA287, 0x5BACE62D, 0xCC4769F2),
              Words(0x983E5152, 0xA831C66D, 0xB00327C8, 0xBF597FC7, 0xC6E00BF3, 0xD5A79147, 0x06CA6351, 0x14292967),
              Words(0x01B00000, 0x220A8D94, 0x0000A365, 0x177017E7, 0x63D38035, 0x090AB713, 0x4C7539CA, 0x0F19A8C9))
            == Regs(0xB0EAB1C5, 0x02EF3A5F, 0x1CFA5EB0, 0xD958B529, 0xF6D93952, 0x5DA10665, 0x6C49DB9F, 0xC2FA99B1)
  {
    var r0 := Regs(0xA4195B91, 0xF13AE55B, 0xD44DC81A, 0x20AAD899, 0xEDDBD6ED, 0x966AA287, 0x5BACE62D, 0xCC4769F2);
    var r1 := Step(r0, 0x983E5152, 0x01B00000, 0x4984FA79, 0xA530D939);
    var r2 := Step(r1, 0xA831C66D, 0x220A8D94, 0xAA6CB982, 0x0B5EEEA4);
    var r3 := Step(r2, 0xB00327C8, 0x0000A365, 0x9450FBBC, 0x09166DDA);
    var r4 := Step(r3, 0xBF597FC7, 0x177017E7, 0x0D936BAB, 0x6E495D4B);
    var r5 := Step(r4, 0xC6E00BF3, 0x63D38035, 0xD958B529, 0xC2FA99B1);
    var r6 := Step(r5, 0xD5A79147, 0x090AB713, 0x1CFA5EB0, 0x6C49DB9F);
    var r7 := Step(r6, 0x06CA6351, 0x4C7539CA, 0x02EF3A5F, 0x5DA10665);
    var r8 := Step(r7, 0x14292967, 0x0F19A8C9, 0xB0EAB1C5, 0xF6D93952);
    hide Round;
  }

  lemma Second5()
    ensures NextWords(
              Words(0x5DF4B0C4, 0xE257036A, 0xC97BB6F1, 0xC5B46F4D, 0xF8253C4E, 0xA558D189, 0x78696285, 0xED07117F),
              Words(0x107358F6, 0x390AE496, 0x565010A2, 0xC51D7D44, 0x9E74C972, 0x6614B561, 0x30FC129D, 0x9AC684A8))
            == Words(0x2B658DBD, 0xE290F793, 0x9EEBB24C, 0x9713B5DE, 0x41061AB7, 0xE022E23B, 0x0772079E, 0x7DE22D9C)
    ensures NextRegs(
              Regs(0xB0EAB1C5, 0x02EF3A5F, 0x1CFA5EB0, 0xD958B529, 0xF6D93952, 0x5DA10665, 0x6C49DB9F, 0xC2FA99B1),
              Words(0x27B70A85, 0x2E1B2138, 0x4D2C6DFC, 0x53380D13, 0x650A7354, 0x766A0ABB, 0x81C2C92E, 0x92722C85),
              Words(0x5DF4B0C4, 0xE257036A, 0xC97BB6F1, 0xC5B46F4D, 0xF8253C4E, 0xA558D189, 0x78696285, 0xED07117F))
            == Regs(0x221B8A5A, 0xADCA7A96, 0xD949682B, 0x2F11C939, 0x0B82C5EB, 0xC6CCE4FF, 0x32D99008, 0xFED4CE1D)
  {
    var r0 := Regs(0xB0EAB1C5, 0x02EF3A5F, 0x1CFA5EB0, 0xD958B529, 0xF6D93952, 0x5DA10665, 0x6C49DB9F, 0xC2FA99B1);
    var r1 := Step(r0, 0x27B70A85, 0x5DF4B0C4, 0x0BFBA73C, 0x8B99E3A9);
    var r2 := Step(r1, 0x2E1B2138, 0xE257036A, 0x4BD1DF96, 0x905E44AC);
    var r3 := Step(r2, 0x4D2C6DFC, 0xC97BB6F1, 0x9907F1B6, 0x66C3043D);
    var r4 := Step(r3, 0x53380D13, 0xC5B46F4D, 0xECDE4E0D, 0x5DC119E6);
    var r5 := Step(r4, 0x650A7354, 0xF8253C4E, 0x2F11C939, 0xFED4CE1D);
    var r6 := Step(r5, 0x766A0ABB, 0xA558D189, 0xD949682B, 0x32D99008);
    var r7 := Step(r6, 0x81C2C92E, 0x78696285, 0xADCA7A96, 0xC6CCE4FF);
    var r8 := Step(r7, 0x92722C85, 0xED07117F, 0x221B8A5A, 0x0B82C5EB);
    hide Round;
  }

  lemma Second6()
    ensures NextWords(
              Words(0x107358F6, 0x390AE496, 0x565010A2, 0xC51D7D44, 0x9E74C972, 0x6614B561, 0x30FC129D, 0x9AC684A8),
              Words(0x2B658DBD, 0xE290F793, 0x9EEBB24C, 0x9713B5DE, 0x41061AB7, 0xE022E23B, 0x0772079E, 0x7DE22D9C))
            == Words(0xC8B83778, 0x75A79849, 0xD93DBDDB, 0x0A036C9D, 0xCB4F6AC6, 0x823F97E2, 0xEA2F2A7A, 0xB9018B52)
    ensures NextRegs(
              Regs(0x221B8A5A, 0xADCA7A96, 0xD949682B, 0x2F11C939, 0x0B82C5EB, 0xC6CCE4FF, 0x32D99008, 0xFED4CE1D),
              Words(0xA2BFE8A1, 0xA81A664B, 0xC24B8B70, 0xC76C51A3, 0xD192E819, 0xD6990624, 0xF40E3585, 0x106AA070),
              Words(0x107358F6, 0x390AE496, 0x565010A2, 0xC51D7D44, 0x9E74C972, 0x6614B561, 0x30FC129D, 0x9AC684A8))
            == Regs(0xD7354D5B, 0x0B3303A7, 0x104A7DB4, 0x0F154E11, 0xAAD55B6B, 0xBBE1C39A, 0x5348E8F6, 0x6F9517CB)
  {
    var r0 := Regs(0x221B8A5A, 0xADCA7A96, 0xD949682B, 0x2F11C939, 0x0B82C5EB, 0xC6CCE4FF, 0x32D99008, 0xFED4CE1D);
    var r1 := Step(r0, 0xA2BFE8A1, 0x107358F6, 0x12D97845, 0xE4213CA2);
    var r2 := Step(r1, 0xA81A664B, 0x390AE496, 0x2C794876, 0xFF6759BA);
    var r3 := Step(r2, 0xC24B8B70, 0x565010A2, 0x8300FCA2, 0xE0E3457C);
    var r4 := Step(r3, 0xC76C51A3, 0xC51D7D44, 0xF2AD6322, 0xCC48C7F3);
    var r5 := Step(r4, 0xD192E819, 0x9E74C972, 0x0F154E11, 0x6F9517CB);
    var r6 := Step(r5, 0xD6990624, 0x6614B561, 0x104A7DB4, 0x5348E8F6);
    var r7 := Step(r6, 0xF40E3585, 0x30FC129D, 0x0B3303A7, 0xBBE1C39A);
    var r8 := Step(r7, 0x106AA070, 0x9AC684A8, 0xD7354D5B, 0xAAD55B6B);
    hide Round;
  }

  lemma Second7()
    ensures NextRegs(
              Regs(0xD7354D5B, 0x0B3303A7, 0x104A7DB4, 0x0F154E11, 0xAAD55B6B, 0xBBE1C39A, 0x5348E8F6, 0x6F9517CB),
              Words(0x19A4C116, 0x1E376C08, 0x2748774C, 0x34B0BCB5, 0x391C0CB3, 0x4ED8AA4A, 0x5B9CCA4F, 0x682E6FF3),
              Words(0x2B658DBD, 0xE290F793, 0x9EEBB24C, 0x9713B5DE, 0x41061AB7, 0xE022E23B, 0x0772079E, 0x7DE22D9C))
            == Regs(0x92952710, 0xD9F0C115, 0xEC02560A, 0x4ECA6FA0, 0x226806D6, 0x624150C4, 0x7151DF8E, 0x989ED071)
  {
    var r0 := Regs(0xD7354D5B, 0x0B3303A7, 0x104A7DB4, 0x0F154E11, 0xAAD55B6B, 0xBBE1C39A, 0x5348E8F6, 0x6F9517CB);
    var r1 := Step(r0, 0x19A4C116, 0x2B658DBD, 0xB736D7A6, 0x68F25260);
    var r2 := Step(r1, 0x1E376C08, 0xE290F793, 0x2748E5EC, 0xD4B58576);
    var r3 := Step(r2, 0x2748774C, 0x9EEBB24C, 0xD8AABCF9, 0x27844711);
    var r4 := Step(r3, 0x34B0BCB5, 0x9713B5DE, 0x1A6BCF6A, 0xFF5E99D0);
    var r5 := Step(r4, 0x391C0CB3, 0x41061AB7, 0x4ECA6FA0, 0x989ED071);
    var r6 := Step(r5, 0x4ED8AA4A, 0xE022E23B, 0xEC02560A, 0x7151DF8E);
    var r7 := Step(r6, 0x5B9CCA4F, 0x0772079E, 0xD9F0C115, 0x624150C4);
    var r8 := Step(r7, 0x682E6FF3, 0x7DE22D9C, 0x92952710, 0x226806D6);
    hide Round;
  }

  lemma Second8()
    ensures NextRegs(
              Regs(0x92952710, 0xD9F0C115, 0xEC02560A, 0x4ECA6FA0, 0x226806D6, 0x624150C4, 0x7151DF8E, 0x989ED071),
              Words(0x748F82EE, 0x78A5636F, 0x84C87814, 0x8CC70208, 0x90BEFFFA, 0xA4506CEB, 0xBEF9A3F7, 0xC67178F2),
              Words(0xC8B83778, 0x75A79849, 0xD93DBDDB, 0x0A036C9D, 0xCB4F6AC6, 0x823F97E2, 0xEA2F2A7A, 0xB9018B52))
            == Regs(0x9EA7148B, 0x908C2123, 0xB25CEF29, 0xA9F181DD, 0x2C5C4ED0, 0x9A392956, 0x2AA1BB13, 0x27CCB387)
  {
    var r0 := Regs(0x92952710, 0xD9F0C115, 0xEC02560A, 0x4ECA6FA0, 0x226806D6, 0x624150C4, 0x7151DF8E, 0x989ED071);
    var r1 := Step(r0, 0x748F82EE, 0xC8B83778, 0x20D4D0E4, 0x4E515A4D);
    var r2 := Step(r1, 0x78A5636F, 0x75A79849, 0x4348EB1F, 0xC21EDDF9);
    var r3 := Step(r2, 0x84C87814, 0xD93DBDDB, 0x286FE5F0, 0x54076664);
    var r4 := Step(r3, 0x8CC70208, 0x0A036C9D, 0x1C4CDDD9, 0xF487A853);
    var r5 := Step(r4, 0x90BEFFFA, 0xCB4F6AC6, 0xA9F181DD, 0x27CCB387);
    var r6 := Step(r5, 0xA4506CEB, 0x823F97E2, 0xB25CEF29, 0x2AA1BB13);
    var r7 := Step(r6, 0xBEF9A3F7, 0xEA2F2A7A, 0x908C2123, 0x9A392956);
    var r8 := Step(r7, 0xC67178F2, 0xB9018B52, 0x9EA7148B, 0x2C5C4ED0);
    hide Round;
  }

  lemma SecondSum()
    ensures Plus(
              Regs(0x85E655D6, 0x417A1795, 0x3363376A, 0x624CDE5C, 0x76E09589, 0xCAC5F811, 0xCC4B32C1, 0xF20E533A),
              Regs(0x9EA7148B, 0x908C2123, 0xB25CEF29, 0xA9F181DD, 0x2C5C4ED0, 0x9A392956, 0x2AA1BB13, 0x27CCB387))
            == Regs(0x248D6A61, 0xD20638B8, 0xE5C02693, 0x0C3E6039, 0xA33CE459, 0x64FF2167, 0xF6ECEDD4, 0x19DB06C1)
  {
  }

  lemma AbcOutput()
    ensures Output(
              Regs(0xBA7816BF, 0x8F01CFEA, 0x414140DE, 0x5DAE2223, 0xB00361A3, 0x96177A9C, 0xB410FF61, 0xF20015AD))
            == [0xBA, 0x78, 0x16, 0xBF, 0x8F, 0x01, 0xCF, 0xEA, 0x41, 0x41, 0x40, 0xDE, 0x5D, 0xAE, 0x22, 0x23,
                0xB0, 0x03, 0x61, 0xA3, 0x96, 0x17, 0x7A, 0x9C, 0xB4, 0x10, 0xFF, 0x61, 0xF2, 0x00, 0x15, 0xAD]
  {
    hide Half;
    AbcLeft();
    AbcRight();
    OutputIs(Regs(0xBA7816BF, 0x8F01CFEA, 0x414140DE, 0x5DAE2223, 0xB00361A3, 0x96177A9C, 0xB410FF61, 0xF20015AD));
  }

  lemma AbcLeft()
    ensures Half(0xBA7816BF, 0x8F01CFEA, 0x414140DE, 0x5DAE2223)
            == [0xBA, 0x78, 0x16, 0xBF, 0x8F, 0x01, 0xCF, 0xEA, 0x41, 0x41, 0x40, 0xDE, 0x5D, 0xAE, 0x22, 0x23]
  {
    hide BE;
    Digits(0xBA7816BF, 0xBA, 0x78, 0x16, 0xBF);
    Digits(0x8F01CFEA, 0x8F, 0x01, 0xCF, 0xEA);
    Digits(0x414140DE, 0x41, 0x41, 0x40, 0xDE);
    Digits(0x5DAE2223, 0x5D, 0xAE, 0x22, 0x23);
  }

  lemma AbcRight()
    ensures Half(0xB00361A3, 0x96177A9C, 0xB410FF61, 0xF20015AD)
            == [0xB0, 0x03, 0x61, 0xA3, 0x96, 0x17, 0x7A, 0x9C, 0xB4, 0x10, 0xFF, 0x61, 0xF2, 0x00, 0x15, 0xAD]
  {
    hide BE;
    Digits(0xB00361A3, 0xB0, 0x03, 0x61, 0xA3);
    Digits(0x96177A9C, 0x96, 0x17, 0x7A, 0x9C);
    Digits(0xB410FF61, 0xB4, 0x10, 0xFF, 0x61);
    Digits(0xF20015AD, 0xF2, 0x00, 0x15, 0xAD);
  }

  lemma SecondOutput()
    ensures Output(
              Regs(0x248D6A61, 0xD20638B8, 0xE5C02693, 0x0C3E6039, 0xA33CE459, 0x64FF2167, 0xF6ECEDD4, 0x19DB06C1))
            == [0x24, 0x8D, 0x6A, 0x61, 0xD2, 0x06, 0x38, 0xB8, 0xE5, 0xC0, 0x26, 0x93, 0x0C, 0x3E, 0x60, 0x39,
                0xA3, 0x3C, 0xE4, 0x59, 0x64, 0xFF, 0x21, 0x67, 0xF6, 0xEC, 0xED, 0xD4, 0x19, 0xDB, 0x06, 0xC1]
  {
    hide Half;
    SecondLeft();
    SecondRight();
    OutputIs(Regs(0x248D6A61, 0xD20638B8, 0xE5C02693, 0x0C3E6039, 0xA33CE459, 0x64FF2167, 0xF6ECEDD4, 0x19DB06C1));
  }

  lemma SecondLeft()
    ensures Half(0x248D6A61, 0xD20638B8, 0xE5C02693, 0x0C3E6039)
            == [0x24, 0x8D, 0x6A, 0x61, 0xD2, 0x06, 0x38, 0xB8, 0xE5, 0xC0, 0x26, 0x93, 0x0C, 0x3E, 0x60, 0x39]
  {
    hide BE;
    Digits(0x248D6A61, 0x24, 0x8D, 0x6A, 0x61);
    Digits(0xD20638B8, 0xD2, 0x06, 0x38, 0xB8);
    Digits(0xE5C02693, 0xE5, 0xC0, 0x26, 0x93);
    Digits(0x0C3E6039, 0x0C, 0x3E, 0x60, 0x39);
  }

  lemma SecondRight()
    ensures Half(0xA33CE459, 0x64FF2167, 0xF6ECEDD4, 0x19DB06C1)
            == [0xA3, 0x3C, 0xE4, 0x59, 0x64, 0xFF, 0x21, 0x67, 0xF6, 0xEC, 0xED, 0xD4, 0x19, 0xDB, 0x06, 0xC1]
  {
    hide BE;
    Digits(0xA33CE459, 0xA3, 0x3C, 0xE4, 0x59);
    Digits(0x64FF2167, 0x64, 0xFF, 0x21, 0x67);
    Digits(0xF6ECEDD4, 0xF6, 0xEC, 0xED, 0xD4);
    Digits(0x19DB06C1, 0x19, 0xDB, 0x06, 0xC1);
  }

  // ---------------------------------------------------------------- the digests

  /** The words of a block that begins with one word, and ends with one. */
  lemma AlmostEmpty(block: seq<Byte>, first: bv32, a: Byte, b: Byte, c: Byte, d: Byte, last: bv32, x: Byte, y: Byte)
    requires |block| == 64 && block == [a, b, c, d] + Fill(0, 58) + [x, y]
    requires first as int == ((a as int * 256 + b) * 256 + c) * 256 + d && last as int == x as int * 256 + y
    ensures WordsAt(block, 0) == Words(first, 0, 0, 0, 0, 0, 0, 0)
    ensures WordsAt(block, 8) == Words(0, 0, 0, 0, 0, 0, 0, last)
  {
    hide Schedule;
    WordIs(block, 0, a, b, c, d, first);
    WordIs(block, 15, 0, 0, x, y, last);
    forall i | 1 <= i < 15
      ensures Schedule(block, i) == 0
    {
      WordIs(block, i, 0, 0, 0, 0, 0);
    }
  }

  lemma LengthOf(n: nat, x: Byte, y: Byte)
    requires n == x as int * 256 + y
    ensures BE(n, 8) == Fill(0, 6) + [x, y]
  {
    assert n / 256 == x && n % 256 == y;
    assert BE(n / 256, 7) == BE(0, 6) + [x];
    assert BE(0, 6) == Fill(0, 6);
  }

  lemma OneBlock(m: seq<Byte>)
    requires |Pad(m)| == 64
    ensures Hash(m) == Output(Compress(H0, Pad(m)))
  {
    hide Compress, Output, Pad;
    assert BlockAt(Pad(m), 0) == Pad(m);
    assert Hashed(Pad(m), 1) == Compress(Hashed(Pad(m), 0), BlockAt(Pad(m), 0));
  }

  lemma TwoBlocks(m: seq<Byte>)
    requires |Pad(m)| == 128
    ensures Hash(m) == Output(Compress(Compress(H0, Pad(m)[..64]), Pad(m)[64..]))
  {
    hide Compress, Output, Pad;
    var p := Pad(m);
    assert BlockAt(p, 0) == p[..64] && BlockAt(p, 1) == p[64..];
    assert Hashed(p, 1) == Compress(Hashed(p, 0), BlockAt(p, 0));
    assert Hashed(p, 2) == Compress(Hashed(p, 1), BlockAt(p, 1));
  }

  /** The digest of the message abc. */
  lemma AbcDigest()
    ensures Hash([0x61, 0x62, 0x63])
            == [0xBA, 0x78, 0x16, 0xBF, 0x8F, 0x01, 0xCF, 0xEA, 0x41, 0x41, 0x40, 0xDE, 0x5D, 0xAE, 0x22, 0x23,
                0xB0, 0x03, 0x61, 0xA3, 0x96, 0x17, 0x7A, 0x9C, 0xB4, 0x10, 0xFF, 0x61, 0xF2, 0x00, 0x15, 0xAD]
  {
    var m: seq<Byte> := [0x61, 0x62, 0x63];
    LengthOf(24, 0, 24);
    hide BE, Hash, Schedule, Compress, Output;
    assert Pad(m) == [0x61, 0x62, 0x63, 0x80] + Fill(0, 58) + [0, 24];
    hide Pad;
    AlmostEmpty(Pad(m), 0x61626380, 0x61, 0x62, 0x63, 0x80, 24, 0, 24);
    OneBlock(m);
    Abc(Pad(m));
    AbcOutput();
  }

  /** The message of 56 bytes, whose padding takes a second block. */
  const ROWS: seq<seq<Byte>> := [
    [0x61, 0x62, 0x63, 0x64], [0x62, 0x63, 0x64, 0x65], [0x63, 0x64, 0x65, 0x66], [0x64, 0x65, 0x66, 0x67],
    [0x65, 0x66, 0x67, 0x68], [0x66, 0x67, 0x68, 0x69], [0x67, 0x68, 0x69, 0x6A], [0x68, 0x69, 0x6A, 0x6B],
    [0x69, 0x6A, 0x6B, 0x6C], [0x6A, 0x6B, 0x6C, 0x6D], [0x6B, 0x6C, 0x6D, 0x6E], [0x6C, 0x6D, 0x6E, 0x6F],
    [0x6D, 0x6E, 0x6F, 0x70], [0x6E, 0x6F, 0x70, 0x71]]

  lemma FirstWords(block: seq<Byte>)
    requires block == Joined(ROWS) + [0x80, 0, 0, 0] + [0, 0, 0, 0]
    ensures |block| == 64
    ensures WordsAt(block, 0) == Words(0x61626364, 0x62636465, 0x63646566, 0x64656667,
                                       0x65666768, 0x66676869, 0x6768696A, 0x68696A6B)
    ensures WordsAt(block, 8) == Words(0x696A6B6C, 0x6A6B6C6D, 0x6B6C6D6E, 0x6C6D6E6F,
                                       0x6D6E6F70, 0x6E6F7071, 0x80000000, 0x00000000)
  {
    hide Joined, Schedule, ROWS;
    Rows();
    WordIs(block, 0, 0x61, 0x62, 0x63, 0x64, 0x61626364);
    WordIs(block, 1, 0x62, 0x63, 0x64, 0x65, 0x62636465);
    WordIs(block, 2, 0x63, 0x64, 0x65, 0x66, 0x63646566);
    WordIs(block, 3, 0x64, 0x65, 0x66, 0x67, 0x64656667);
    WordIs(block, 4, 0x65, 0x66, 0x67, 0x68, 0x65666768);
    WordIs(block, 5, 0x66, 0x67, 0x68, 0x69, 0x66676869);
    WordIs(block, 6, 0x67, 0x68, 0x69, 0x6A, 0x6768696A);
    WordIs(block, 7, 0x68, 0x69, 0x6A, 0x6B, 0x68696A6B);
    WordIs(block, 8, 0x69, 0x6A, 0x6B, 0x6C, 0x696A6B6C);
    WordIs(block, 9, 0x6A, 0x6B, 0x6C, 0x6D, 0x6A6B6C6D);
    WordIs(block, 10, 0x6B, 0x6C, 0x6D, 0x6E, 0x6B6C6D6E);
    WordIs(block, 11, 0x6C, 0x6D, 0x6E, 0x6F, 0x6C6D6E6F);
    WordIs(block, 12, 0x6D, 0x6E, 0x6F, 0x70, 0x6D6E6F70);
    WordIs(block, 13, 0x6E, 0x6F, 0x70, 0x71, 0x6E6F7071);
    WordIs(block, 14, 0x80, 0x00, 0x00, 0x00, 0x80000000);
    WordIs(block, 15, 0x00, 0x00, 0x00, 0x00, 0x00000000);
  }

  lemma Rows()
    ensures |Joined(ROWS)| == 56
    ensures Joined(ROWS)[0..4] == [0x61, 0x62, 0x63, 0x64]
    ensures Joined(ROWS)[4..8] == [0x62, 0x63, 0x64, 0x65]
    ensures Joined(ROWS)[8..12] == [0x63, 0x64, 0x65, 0x66]
    ensures Joined(ROWS)[12..16] == [0x64, 0x65, 0x66, 0x67]
    ensures Joined(ROWS)[16..20] == [0x65, 0x66, 0x67, 0x68]
    ensures Joined(ROWS)[20..24] == [0x66, 0x67, 0x68, 0x69]
    ensures Joined(ROWS)[24..28] == [0x67, 0x68, 0x69, 0x6A]
    ensures Joined(ROWS)[28..32] == [0x68, 0x69, 0x6A, 0x6B]
    ensures Joined(ROWS)[32..36] == [0x69, 0x6A, 0x6B, 0x6C]
    ensures Joined(ROWS)[36..40] == [0x6A, 0x6B, 0x6C, 0x6D]
    ensures Joined(ROWS)[40..44] == [0x6B, 0x6C, 0x6D, 0x6E]
    ensures Joined(ROWS)[44..48] == [0x6C, 0x6D, 0x6E, 0x6F]
    ensures Joined(ROWS)[48..52] == [0x6D, 0x6E, 0x6F, 0x70]
    ensures Joined(ROWS)[52..56] == [0x6E, 0x6F, 0x70, 0x71]
  {
    RowAt(ROWS, 0);
    RowAt(ROWS, 1);
    RowAt(ROWS, 2);
    RowAt(ROWS, 3);
    RowAt(ROWS, 4);
    RowAt(ROWS, 5);
    RowAt(ROWS, 6);
    RowAt(ROWS, 7);
    RowAt(ROWS, 8);
    RowAt(ROWS, 9);
    RowAt(ROWS, 10);
    RowAt(ROWS, 11);
    RowAt(ROWS, 12);
    RowAt(ROWS, 13);
  }

  lemma PaddedHalves(m: seq<Byte>)
    requires |m| == 56
    ensures |Pad(m)| == 128 && Pad(m)[..64] == m + [0x80, 0, 0, 0] + [0, 0, 0, 0]
    ensures Pad(m)[64..] == [0, 0, 0, 0] + Fill(0, 58) + [1, 0xC0]
  {
    LengthOf(448, 1, 0xC0);
    hide BE;
    var p := Pad(m);
    assert p == m + [0x80] + Fill(0, 63) + (Fill(0, 6) + [1, 0xC0]);
  }

  /** The digest of the message of 56 bytes. */
  lemma TwoBlockDigest()
    ensures |Joined(ROWS)| == 56
    ensures Hash(Joined(ROWS))
            == [0x24, 0x8D, 0x6A, 0x61, 0xD2, 0x06, 0x38, 0xB8, 0xE5, 0xC0, 0x26, 0x93, 0x0C, 0x3E, 0x60, 0x39,
                0xA3, 0x3C, 0xE4, 0x59, 0x64, 0xFF, 0x21, 0x67, 0xF6, 0xEC, 0xED, 0xD4, 0x19, 0xDB, 0x06, 0xC1]
  {
    hide *;
    Rows();
    var m := Joined(ROWS);
    PaddedHalves(m);
    var p := Pad(m);
    FirstWords(p[..64]);
    AlmostEmpty(p[64..], 0, 0, 0, 0, 0, 448, 1, 0xC0);
    TwoBlocks(m);
    First(p[..64]);
    Second(p[64..]);
    SecondOutput();
  }
}
