/** Known answers: the three hashes of one key of 47 bytes, long enough to pass through two 16-byte
    rounds, every lane of the body and of the tail, and 11 rounds of the 32-bit variant.  They fix
    every constant of hash/mmhash3.go; the intermediate states keep the evaluation in small steps. */
module MurmurVectors {
  import opened MurmurWords32
  import opened MurmurWords64
  import Murmur3A
  import Murmur3C
  import Murmur3F

  const SEED: bv32 := 0x9747b28c

  // The text "The quick brown fox jumps over the lazy dog. Ok" in three parts.

  function First(): seq<byte> {
    [0x54, 0x68, 0x65, 0x20, 0x71, 0x75, 0x69, 0x63, 0x6b, 0x20, 0x62, 0x72, 0x6f, 0x77, 0x6e, 0x20]
  }

  function Second(): seq<byte> {
    [0x66, 0x6f, 0x78, 0x20, 0x6a, 0x75, 0x6d, 0x70, 0x73, 0x20, 0x6f, 0x76, 0x65, 0x72, 0x20, 0x74]
  }

  function Third(): seq<byte> {
    [0x68, 0x65, 0x20, 0x6c, 0x61, 0x7a, 0x79, 0x20, 0x64, 0x6f, 0x67, 0x2e, 0x20, 0x4f, 0x6b]
  }

  function Sample(): seq<byte> {
    First() + (Second() + Third())
  }

  lemma SampleParts()
    ensures |Sample()| == 47 && |First()| == 16 && |Second()| == 16 && |Third()| == 15
    ensures forall i :: 0 <= i < 16 ==> Sample()[i] == First()[i]
    ensures forall i :: 16 <= i < 32 ==> Sample()[i] == Second()[i - 16]
    ensures forall i :: 32 <= i < 47 ==> Sample()[i] == Third()[i - 32]
  {
  }

  lemma FirstBytes()
    ensures |First()| == 16
    ensures First()[0] == 0x54 && First()[1] == 0x68 && First()[2] == 0x65 && First()[3] == 0x20
    ensures First()[4] == 0x71 && First()[5] == 0x75 && First()[6] == 0x69 && First()[7] == 0x63
    ensures First()[8] == 0x6b && First()[9] == 0x20 && First()[10] == 0x62 && First()[11] == 0x72
    ensures First()[12] == 0x6f && First()[13] == 0x77 && First()[14] == 0x6e && First()[15] == 0x20
  {
  }

  lemma SampleWords1()
    ensures Word(Sample(), 0) == 0x20656854
    ensures Word(Sample(), 4) == 0x63697571
    ensures Word(Sample(), 8) == 0x7262206b
    ensures Word(Sample(), 12) == 0x206e776f
  {
    FirstBytes();
    SampleParts();
    hide Sample, First, Second, Third, Little;
    assert Word(Sample(), 0) == Little(0x54, 0x68, 0x65, 0x20);
    assert Word(Sample(), 4) == Little(0x71, 0x75, 0x69, 0x63);
    assert Word(Sample(), 8) == Little(0x6b, 0x20, 0x62, 0x72);
    assert Word(Sample(), 12) == Little(0x6f, 0x77, 0x6e, 0x20);
    LittlesOfFirst();
  }

  lemma LittlesOfFirst()
    ensures Little(0x54, 0x68, 0x65, 0x20) == 0x20656854
    ensures Little(0x71, 0x75, 0x69, 0x63) == 0x63697571
    ensures Little(0x6b, 0x20, 0x62, 0x72) == 0x7262206b
    ensures Little(0x6f, 0x77, 0x6e, 0x20) == 0x206e776f
  {
  }

  lemma SecondBytes()
    ensures |Second()| == 16
    ensures Second()[0] == 0x66 && Second()[1] == 0x6f && Second()[2] == 0x78 && Second()[3] == 0x20
    ensures Second()[4] == 0x6a && Second()[5] == 0x75 && Second()[6] == 0x6d && Second()[7] == 0x70
    ensures Second()[8] == 0x73 && Second()[9] == 0x20 && Second()[10] == 0x6f && Second()[11] == 0x76
    ensures Second()[12] == 0x65 && Second()[13] == 0x72 && Second()[14] == 0x20 && Second()[15] == 0x74
  {
  }

  lemma SampleWords2()
    ensures Word(Sample(), 16) == 0x20786f66
    ensures Word(Sample(), 20) == 0x706d756a
    ensures Word(Sample(), 24) == 0x766f2073
    ensures Word(Sample(), 28) == 0x74207265
  {
    SecondBytes();
    SampleParts();
    hide Sample, First, Second, Third, Little;
    assert Word(Sample(), 16) == Little(0x66, 0x6f, 0x78, 0x20);
    assert Word(Sample(), 20) == Little(0x6a, 0x75, 0x6d, 0x70);
    assert Word(Sample(), 24) == Little(0x73, 0x20, 0x6f, 0x76);
    assert Word(Sample(), 28) == Little(0x65, 0x72, 0x20, 0x74);
    LittlesOfSecond();
  }

  lemma LittlesOfSecond()
    ensures Little(0x66, 0x6f, 0x78, 0x20) == 0x20786f66
    ensures Little(0x6a, 0x75, 0x6d, 0x70) == 0x706d756a
    ensures Little(0x73, 0x20, 0x6f, 0x76) == 0x766f2073
    ensures Little(0x65, 0x72, 0x20, 0x74) == 0x74207265
  {
  }

  lemma ThirdBytes()
    ensures |Third()| == 15
    ensures Third()[0] == 0x68 && Third()[1] == 0x65 && Third()[2] == 0x20 && Third()[3] == 0x6c
    ensures Third()[4] == 0x61 && Third()[5] == 0x7a && Third()[6] == 0x79 && Third()[7] == 0x20
    ensures Third()[8] == 0x64 && Third()[9] == 0x6f && Third()[10] == 0x67 && Third()[11] == 0x2e
    ensures Third()[12] == 0x20 && Third()[13] == 0x4f && Third()[14] == 0x6b
  {
  }

  lemma SampleWords3()
    ensures Word(Sample(), 32) == 0x6c206568
    ensures Word(Sample(), 36) == 0x20797a61
    ensures Word(Sample(), 40) == 0x2e676f64
    ensures Word(Sample(), 44) == 0x006b4f20
  {
    ThirdBytes();
    SampleParts();
    hide Sample, First, Second, Third, Little;
    assert Word(Sample(), 32) == Little(0x68, 0x65, 0x20, 0x6c);
    assert Word(Sample(), 36) == Little(0x61, 0x7a, 0x79, 0x20);
    assert Word(Sample(), 40) == Little(0x64, 0x6f, 0x67, 0x2e);
    assert Word(Sample(), 44) == Little(0x20, 0x4f, 0x6b, 0x00);
    LittlesOfThird();
  }

  lemma LittlesOfThird()
    ensures Little(0x68, 0x65, 0x20, 0x6c) == 0x6c206568
    ensures Little(0x61, 0x7a, 0x79, 0x20) == 0x20797a61
    ensures Little(0x64, 0x6f, 0x67, 0x2e) == 0x2e676f64
    ensures Little(0x20, 0x4f, 0x6b, 0x00) == 0x006b4f20
  {
  }

  lemma SampleLength()
    ensures |Sample()| == 47 && LengthWord(47) == 47 && LengthWord64(47) == 47
  {
    assert 47 % 0x1_0000_0000 == 47;
    assert 47 % 0x1_0000_0000_0000_0000 == 47;
  }

  // ----- Murmur3A -----

  lemma RoundsOfA()
    ensures Murmur3A.Round(0x9747b28c, 0x20656854) == 0x57eac45f
    ensures Murmur3A.Round(0x57eac45f, 0x63697571) == 0x7833f620
    ensures Murmur3A.Round(0x7833f620, 0x7262206b) == 0x7d840649
    ensures Murmur3A.Round(0x7d840649, 0x206e776f) == 0x0af95548
    ensures Murmur3A.Round(0x0af95548, 0x20786f66) == 0x45afabb6
    ensures Murmur3A.Round(0x45afabb6, 0x706d756a) == 0x690b7f47
    ensures Murmur3A.Round(0x690b7f47, 0x766f2073) == 0x8a1671f0
    ensures Murmur3A.Round(0x8a1671f0, 0x74207265) == 0x108f5319
    ensures Murmur3A.Round(0x108f5319, 0x6c206568) == 0x5946d986
    ensures Murmur3A.Round(0x5946d986, 0x20797a61) == 0x937ba148
    ensures Murmur3A.Round(0x937ba148, 0x2e676f64) == 0xe8bb14ec
  {
  }

  lemma EndOfA()
    ensures Murmur3A.Mix(0x006b4f20) == 0xf0ac70ca
    ensures Xor(Xor(0xe8bb14ec, 0xf0ac70ca), 47) == 0x18176409
    ensures Fmix(0x18176409) == 0xf9918667
  {
  }

  lemma BodyOfA()
    ensures Murmur3A.Body(Sample(), 11, SEED) == 0xe8bb14ec
  {
    hide Word, Sample, Murmur3A.Round;
    SampleWords1();
    SampleWords2();
    SampleWords3();
    RoundsOfA();
    assert Murmur3A.Body(Sample(), 0, SEED) == 0x9747b28c;
    assert Murmur3A.Body(Sample(), 1, SEED) == 0x57eac45f;
    assert Murmur3A.Body(Sample(), 2, SEED) == 0x7833f620;
    assert Murmur3A.Body(Sample(), 3, SEED) == 0x7d840649;
    assert Murmur3A.Body(Sample(), 4, SEED) == 0x0af95548;
    assert Murmur3A.Body(Sample(), 5, SEED) == 0x45afabb6;
    assert Murmur3A.Body(Sample(), 6, SEED) == 0x690b7f47;
    assert Murmur3A.Body(Sample(), 7, SEED) == 0x8a1671f0;
    assert Murmur3A.Body(Sample(), 8, SEED) == 0x108f5319;
    assert Murmur3A.Body(Sample(), 9, SEED) == 0x5946d986;
    assert Murmur3A.Body(Sample(), 10, SEED) == 0x937ba148;
    assert Murmur3A.Body(Sample(), 11, SEED) == 0xe8bb14ec;
  }

  lemma KnownAnswerA()
    ensures Murmur3A.Hash(Sample(), SEED) == 0xf9918667
  {
    hide Word, Sample, Murmur3A.Body, Murmur3A.Mix, Xor, Fmix, LengthWord, LengthWord64;
    SampleLength();
    SampleWords3();
    BodyOfA();
    EndOfA();
  }

  // ----- Murmur3C -----

  lemma FirstRoundOfC()
    ensures Murmur3C.Round(
      Murmur3C.Quad(0x9747b28c, 0x9747b28c, 0x9747b28c, 0x9747b28c),
      Murmur3C.Quad(0x20656854, 0x63697571, 0x7262206b, 0x206e776f)) ==
      Murmur3C.Quad(0x231c87ff, 0x2752a10a, 0x71b71f68, 0x943b3062)
  {
  }

  lemma SecondRoundOfC()
    ensures Murmur3C.Round(
      Murmur3C.Quad(0x231c87ff, 0x2752a10a, 0x71b71f68, 0x943b3062),
      Murmur3C.Quad(0x20786f66, 0x706d756a, 0x766f2073, 0x74207265)) ==
      Murmur3C.Quad(0x73d4ad23, 0x3af9109c, 0x0600f4eb, 0xf655b738)
  {
  }

  lemma TailOfC()
    ensures Murmur3C.Absorb(
      Murmur3C.Quad(0x73d4ad23, 0x3af9109c, 0x0600f4eb, 0xf655b738),
      Murmur3C.Quad(0x6c206568, 0x20797a61, 0x2e676f64, 0x006b4f20)) ==
      Murmur3C.Quad(0xd178cdb5, 0xfb042b07, 0x01502dfa, 0x4c11f679)
  {
  }

  lemma EndOfC()
    ensures Murmur3C.Finish(
      Murmur3C.Quad(0xd178cdb5, 0xfb042b07, 0x01502dfa, 0x4c11f679), 47) ==
      Murmur3C.Quad(0x3c305017, 0x877f23d6, 0x93958293, 0xb7769527)
  {
    var s := Murmur3C.Stamp(Murmur3C.Quad(0xd178cdb5, 0xfb042b07, 0x01502dfa, 0x4c11f679), 47);
    assert s == Murmur3C.Quad(0xd178cd9a, 0xfb042b28, 0x01502dd5, 0x4c11f656);
    var t := Murmur3C.Spread(s);
    assert t == Murmur3C.Quad(0x19df1ced, 0x14e34815, 0x1b2f4ac2, 0x65f11343);
    FmixesOfC();
    hide Fmix;
    assert Murmur3C.FmixAll(t) == Murmur3C.Quad(0x1e3604cc, 0x4b4ed3bf, 0x5765327c, 0x7b464510);
  }

  lemma FmixesOfC()
    ensures Fmix(0x19df1ced) == 0x1e3604cc
    ensures Fmix(0x14e34815) == 0x4b4ed3bf
    ensures Fmix(0x1b2f4ac2) == 0x5765327c
    ensures Fmix(0x65f11343) == 0x7b464510
  {
  }

  lemma KnownAnswerC()
    ensures Murmur3C.Hash(Sample(), SEED) == Murmur3C.Quad(0x3c305017, 0x877f23d6, 0x93958293, 0xb7769527)
  {
    hide Word, Sample, Murmur3C.Round, Murmur3C.Absorb, Murmur3C.Finish, LengthWord, LengthWord64;
    SampleLength();
    SampleWords1();
    SampleWords2();
    SampleWords3();
    FirstRoundOfC();
    SecondRoundOfC();
    TailOfC();
    EndOfC();
    assert Murmur3C.Body(Sample(), 0, SEED) == Murmur3C.Quad(SEED, SEED, SEED, SEED);
    assert Murmur3C.Body(Sample(), 1, SEED) ==
      Murmur3C.Quad(0x231c87ff, 0x2752a10a, 0x71b71f68, 0x943b3062);
    assert Murmur3C.Body(Sample(), 2, SEED) ==
      Murmur3C.Quad(0x73d4ad23, 0x3af9109c, 0x0600f4eb, 0xf655b738);
  }

  // ----- Murmur3F -----

  const SEED64: bv64 := 0x9747b28c5a827999

  lemma SampleWords64()
    ensures Word64(Sample(), 0) == 0x6369757120656854
    ensures Word64(Sample(), 8) == 0x206e776f7262206b
    ensures Word64(Sample(), 16) == 0x706d756a20786f66
    ensures Word64(Sample(), 24) == 0x74207265766f2073
    ensures Word64(Sample(), 32) == 0x20797a616c206568
    ensures Word64(Sample(), 40) == 0x006b4f202e676f64
  {
    hide Word, Sample;
    SampleWords1();
    SampleWords2();
    SampleWords3();
  }

  lemma FirstRoundOfF()
    ensures Murmur3F.Round(
      Murmur3F.Pair(0x9747b28c5a827999, 0x9747b28c5a827999),
      Murmur3F.Pair(0x6369757120656854, 0x206e776f7262206b)) ==
      Murmur3F.Pair(0xcca1846cca948cc5, 0x908cb462cc1b5d05)
  {
  }

  lemma SecondRoundOfF()
    ensures Murmur3F.Round(
      Murmur3F.Pair(0xcca1846cca948cc5, 0x908cb462cc1b5d05),
      Murmur3F.Pair(0x706d756a20786f66, 0x74207265766f2073)) ==
      Murmur3F.Pair(0x5e20a62433a021f6, 0xc18bf25bd48a5332)
  {
  }

  lemma TailOfF()
    ensures Murmur3F.Absorb(
      Murmur3F.Pair(0x5e20a62433a021f6, 0xc18bf25bd48a5332),
      Murmur3F.Pair(0x20797a616c206568, 0x006b4f202e676f64)) ==
      Murmur3F.Pair(0xe00c66a145b73085, 0xc030d5030c571a8d)
  {
  }

  lemma FmixesOfF()
    ensures Fmix64(0xa03d3ba4520e4b4c) == 0x29bad44915408abe
    ensures Fmix64(0x606e10a75e6565ee) == 0xe00ffd6b0810373a
  {
  }

  lemma EndOfF()
    ensures Murmur3F.Finish(Murmur3F.Pair(0xe00c66a145b73085, 0xc030d5030c571a8d), 47) ==
      Murmur3F.Pair(0x09cad1b41d50c1f8, 0xe9dacf1f2560f932)
  {
    var s := Murmur3F.Stamp(Murmur3F.Pair(0xe00c66a145b73085, 0xc030d5030c571a8d), 47);
    assert s == Murmur3F.Pair(0xe00c66a145b730aa, 0xc030d5030c571aa2);
    var t := Murmur3F.Spread(s);
    assert t == Murmur3F.Pair(0xa03d3ba4520e4b4c, 0x606e10a75e6565ee);
    FmixesOfF();
    hide Fmix64;
    assert Murmur3F.FmixBoth(t) == Murmur3F.Pair(0x29bad44915408abe, 0xe00ffd6b0810373a);
  }

  lemma KnownAnswerF()
    ensures Murmur3F.Hash(Sample(), SEED64) == Murmur3F.Pair(0x09cad1b41d50c1f8, 0xe9dacf1f2560f932)
  {
    hide Word64, Sample, Murmur3F.Round, Murmur3F.Absorb, Murmur3F.Finish, LengthWord, LengthWord64;
    SampleLength();
    SampleWords64();
    FirstRoundOfF();
    SecondRoundOfF();
    TailOfF();
    EndOfF();
    assert Murmur3F.Body(Sample(), 0, SEED64) == Murmur3F.Pair(SEED64, SEED64);
    assert Murmur3F.Body(Sample(), 1, SEED64) == Murmur3F.Pair(0xcca1846cca948cc5, 0x908cb462cc1b5d05);
    assert Murmur3F.Body(Sample(), 2, SEED64) == Murmur3F.Pair(0x5e20a62433a021f6, 0xc18bf25bd48a5332);
  }
}
