/** The steps that the MurmurHash3 variants of hash/mmhash3.go are made of, on 32-bit words, each
    with its inverse.  All multipliers are odd, so every step is a bijection. */
module MurmurWords32 {
  type byte = bv8

  /** `r` is one of the constants 13 to 19 in the source. */
  function Rotl(x: bv32, r: bv8): bv32
    requires r <= 32
  {
    (x << r) | (x >> (32 - r))
  }

  lemma RotlUndo(x: bv32, r: bv8)
    requires 13 <= r <= 19
    ensures Rotl(Rotl(x, r), 32 - r) == x
  {
    match r
    case 13 => assert Rotl((x << 13) | (x >> 19), 19) == x;
    case 14 => assert Rotl((x << 14) | (x >> 18), 18) == x;
    case 15 => assert Rotl((x << 15) | (x >> 17), 17) == x;
    case 16 => assert Rotl((x << 16) | (x >> 16), 16) == x;
    case 17 => assert Rotl((x << 17) | (x >> 15), 15) == x;
    case 18 => assert Rotl((x << 18) | (x >> 14), 14) == x;
    case 19 => assert Rotl((x << 19) | (x >> 13), 13) == x;
  }

  function Xor(x: bv32, y: bv32): bv32 { x ^ y }

  lemma XorUndo(x: bv32, y: bv32)
    ensures Xor(Xor(x, y), y) == x && Xor(Xor(x, y), x) == y
  {
  }

  function Add(x: bv32, y: bv32): bv32 { x + y }
  function Sub(x: bv32, y: bv32): bv32 { x - y }

  lemma SumsCancel(x: bv32, y: bv32)
    ensures (x + y) - y == x && (x - y) + y == x
  {
  }

  lemma AddUndo(x: bv32, y: bv32)
    ensures Sub(Add(x, y), y) == x && Add(Sub(x, y), y) == x
  {
    SumsCancel(x, y);
    assert Add(x, y) == x + y && Sub(x, y) == x - y;
  }

  function Xor16(x: bv32): bv32 { x ^ (x >> 16) }
  function Xor13(x: bv32): bv32 { x ^ (x >> 13) }
  function Unxor13(x: bv32): bv32 { x ^ (x >> 13) ^ (x >> 26) }

  function MulA(x: bv32): bv32 { x * 0x85ebca6b }
  function UnmulA(x: bv32): bv32 { x * 0xa5cb9243 }
  function MulB(x: bv32): bv32 { x * 0xc2b2ae35 }
  function UnmulB(x: bv32): bv32 { x * 0x7ed1b41d }

  // The solver cancels a step against its inverse when the inner one is written out.

  lemma StepsUndo(x: bv32)
    ensures Xor16(x ^ (x >> 16)) == x && Unxor13(x ^ (x >> 13)) == x && Xor13(x ^ (x >> 13) ^ (x >> 26)) == x
    ensures UnmulA(x * 0x85ebca6b) == x && MulA(x * 0xa5cb9243) == x
    ensures UnmulB(x * 0xc2b2ae35) == x && MulB(x * 0x7ed1b41d) == x
  {
  }

  lemma XorShiftUndo(x: bv32)
    ensures Xor16(Xor16(x)) == x && Unxor13(Xor13(x)) == x && Xor13(Unxor13(x)) == x
  {
    StepsUndo(x);
    hide MulA, UnmulA, MulB, UnmulB;
  }

  lemma MulUndo(x: bv32)
    ensures UnmulA(MulA(x)) == x && MulA(UnmulA(x)) == x && UnmulB(MulB(x)) == x && MulB(UnmulB(x)) == x
  {
    StepsUndo(x);
    hide Xor16, Xor13, Unxor13;
  }

  function Fmix(h: bv32): bv32 {
    Xor16(MulB(Xor13(MulA(Xor16(h)))))
  }

  function Unfmix(h: bv32): bv32 {
    Xor16(UnmulA(Unxor13(UnmulB(Xor16(h)))))
  }

  /** The finalizer is a bijection on words. */
  lemma FmixBijective(h: bv32)
    ensures Unfmix(Fmix(h)) == h && Fmix(Unfmix(h)) == h
  {
    hide Xor16, Xor13, Unxor13, MulA, UnmulA, MulB, UnmulB;
    XorShiftUndo(h);
    MulUndo(Xor16(h));
    XorShiftUndo(MulA(Xor16(h)));
    MulUndo(Xor13(MulA(Xor16(h))));
    XorShiftUndo(MulB(Xor13(MulA(Xor16(h)))));
    MulUndo(Xor16(h));
    XorShiftUndo(UnmulB(Xor16(h)));
    MulUndo(Unxor13(UnmulB(Xor16(h))));
    XorShiftUndo(UnmulA(Unxor13(UnmulB(Xor16(h)))));
  }

  /** fmix32, which reassigns its word step by step. */
  method Fmix32(h0: bv32) returns (h: bv32)
    ensures h == Fmix(h0) && Unfmix(h) == h0
  {
    hide Xor16, Xor13, MulA, MulB, Unfmix;
    FmixBijective(h0);
    h := Xor16(h0);
    h := MulA(h);
    h := Xor13(h);
    h := MulB(h);
    h := Xor16(h);
  }

  // ----- words of a key -----

  /** Byte `i` of the key continued by zeros. */
  function Padded(key: seq<byte>, i: nat): byte {
    if i < |key| then key[i] else 0
  }

  function Little(b0: byte, b1: byte, b2: byte, b3: byte): bv32 {
    (b0 as bv32) | ((b1 as bv32) << 8) | ((b2 as bv32) << 16) | ((b3 as bv32) << 24)
  }

  /** The little-endian word at `i` of the key continued by zeros. */
  function Word(key: seq<byte>, i: nat): bv32 {
    Little(Padded(key, i), Padded(key, i + 1), Padded(key, i + 2), Padded(key, i + 3))
  }

  lemma LittleInjective(a0: byte, a1: byte, a2: byte, a3: byte, b0: byte, b1: byte, b2: byte, b3: byte)
    ensures Little(a0, a1, a2, a3) == Little(b0, b1, b2, b3) ==> a0 == b0 && a1 == b1 && a2 == b2 && a3 == b3
  {
  }

  /** binary.LittleEndian.Uint32. */
  function ReadWord(b: seq<byte>): bv32
    requires |b| >= 4
  {
    Little(b[0], b[1], b[2], b[3])
  }

  lemma ReadWordIsWord(key: seq<byte>, i: nat)
    requires i + 4 <= |key|
    ensures ReadWord(key[i..]) == Word(key, i)
  {
  }

  lemma WordOfRest(key: seq<byte>, i: nat, j: nat)
    requires i <= |key|
    ensures Word(key[i..], j) == Word(key, i + j)
  {
    hide Little;
  }

  lemma WordPastEnd(key: seq<byte>, i: nat)
    requires |key| <= i
    ensures Word(key, i) == 0
  {
  }

  lemma XorZero(x: bv32)
    ensures Xor(x, 0) == x
  {
  }

  /** The cases of a fallthrough switch that gather the last bytes of a key into one word, from the
      highest byte that is there down to byte `off`. */
  method Gather(tail: seq<byte>, off: nat) returns (k: bv32)
    requires off < |tail|
    ensures k == Word(tail, off)
  {
    k := 0;
    if |tail| >= off + 4 {
      k := k ^ ((tail[off + 3] as bv32) << 24);
    }
    if |tail| >= off + 3 {
      k := k ^ ((tail[off + 2] as bv32) << 16);
    }
    if |tail| >= off + 2 {
      k := k ^ ((tail[off + 1] as bv32) << 8);
    }
    k := k ^ (tail[off] as bv32);
  }

  /** Keys of one length that differ, and only within the bytes `[lo, hi)`. */
  ghost predicate DifferOnlyIn(a: seq<byte>, b: seq<byte>, lo: nat, hi: nat) {
    |a| == |b| && a != b && forall i :: 0 <= i < |a| && !(lo <= i < hi) ==> a[i] == b[i]
  }

  lemma DifferSomewhere(a: seq<byte>, b: seq<byte>, lo: nat, hi: nat) returns (i: nat)
    requires DifferOnlyIn(a, b, lo, hi)
    ensures lo <= i < hi && i < |a| && a[i] != b[i] && Padded(a, i) != Padded(b, i)
  {
    i :| 0 <= i < |a| && a[i] != b[i];
  }

  lemma PaddedAgree(a: seq<byte>, b: seq<byte>, lo: nat, hi: nat, i: nat)
    requires DifferOnlyIn(a, b, lo, hi) && !(lo <= i < hi)
    ensures Padded(a, i) == Padded(b, i)
  {
  }

  lemma WordsAgree(a: seq<byte>, b: seq<byte>, lo: nat, hi: nat, i: nat)
    requires DifferOnlyIn(a, b, lo, hi) && (i + 4 <= lo || hi <= i)
    ensures Word(a, i) == Word(b, i)
  {
    hide Little, Padded;
    PaddedAgree(a, b, lo, hi, i);
    PaddedAgree(a, b, lo, hi, i + 1);
    PaddedAgree(a, b, lo, hi, i + 2);
    PaddedAgree(a, b, lo, hi, i + 3);
  }

  lemma WordInjective(a: seq<byte>, b: seq<byte>, i: nat, j: nat)
    requires Word(a, i) == Word(b, i) && i <= j < i + 4
    ensures Padded(a, j) == Padded(b, j)
  {
    hide Little, Padded;
    LittleInjective(Padded(a, i), Padded(a, i + 1), Padded(a, i + 2), Padded(a, i + 3),
                    Padded(b, i), Padded(b, i + 1), Padded(b, i + 2), Padded(b, i + 3));
  }

  /** A key length as the source converts it to a word. */
  function LengthWord(n: nat): bv32 {
    (n % 0x1_0000_0000) as bv32
  }

  lemma LengthWordIs(n: nat)
    requires n < 0x1_0000_0000
    ensures LengthWord(n) == n as bv32
  {
    assert n % 0x1_0000_0000 == n;
  }

  lemma LengthWordWraps(n: nat)
    ensures LengthWord(n + 0x1_0000_0000) == LengthWord(n)
  {
    assert (n + 0x1_0000_0000) % 0x1_0000_0000 == n % 0x1_0000_0000;
  }

  lemma LengthOfFour()
    ensures LengthWord(4) == 4
  {
    assert 4 % 0x1_0000_0000 == 4;
  }
}

/** Murmur3A: MurmurHash3_x86_32. */
module Murmur3A {
  import opened MurmurWords32

  // ----- mixing one word, and its inverse -----

  function Mul1(k: bv32): bv32 { k * 0xcc9e2d51 }
  function Unmul1(k: bv32): bv32 { k * 0xdee13bb1 }
  function Mul2(k: bv32): bv32 { k * 0x1b873593 }
  function Unmul2(k: bv32): bv32 { k * 0x56ed309b }
  function Affine(h: bv32): bv32 { h * 5 + 0xe6546b64 }
  function Unaffine(h: bv32): bv32 { (h - 0xe6546b64) * 0xcccccccd }

  lemma StepsUndo(x: bv32)
    ensures Unmul1(x * 0xcc9e2d51) == x && Mul1(x * 0xdee13bb1) == x
    ensures Unmul2(x * 0x1b873593) == x && Mul2(x * 0x56ed309b) == x
    ensures Unaffine(x * 5 + 0xe6546b64) == x && Affine((x - 0xe6546b64) * 0xcccccccd) == x
  {
  }

  lemma MulUndo(x: bv32)
    ensures Unmul1(Mul1(x)) == x && Mul1(Unmul1(x)) == x && Unmul2(Mul2(x)) == x && Mul2(Unmul2(x)) == x
    ensures Unaffine(Affine(x)) == x && Affine(Unaffine(x)) == x
  {
    StepsUndo(x);
  }

  /** What is done to a word of the key before it is xored into the state. */
  function Mix(k: bv32): bv32 {
    Mul2(Rotl(Mul1(k), 15))
  }

  function Unmix(k: bv32): bv32 {
    Unmul1(Rotl(Unmul2(k), 17))
  }

  lemma MixBijective(k: bv32)
    ensures Unmix(Mix(k)) == k && Mix(Unmix(k)) == k && Mix(0) == 0
  {
    assert Mix(0) == 0;
    hide Mul1, Unmul1, Mul2, Unmul2, Rotl;
    MulUndo(k);
    RotlUndo(Mul1(k), 15);
    MulUndo(Rotl(Mul1(k), 15));
    RotlUndo(Unmul2(k), 17);
    MulUndo(Rotl(Unmul2(k), 17));
  }

  /** One round of the body. */
  function Round(h: bv32, k: bv32): bv32 {
    Affine(Rotl(Xor(h, Mix(k)), 13))
  }

  /** The state before a round that mixed in `k` and ended in `h`. */
  function Unround(h: bv32, k: bv32): bv32 {
    Xor(Rotl(Unaffine(h), 19), Mix(k))
  }

  lemma RoundBijective(h: bv32, k: bv32)
    ensures Unround(Round(h, k), k) == h && Round(Unround(h, k), k) == h
  {
    hide Xor, Affine, Unaffine, Rotl, Mix;
    MulUndo(Rotl(Xor(h, Mix(k)), 13));
    RotlUndo(Xor(h, Mix(k)), 13);
    XorUndo(h, Mix(k));
    XorUndo(Rotl(Unaffine(h), 19), Mix(k));
    RotlUndo(Unaffine(h), 19);
    MulUndo(h);
  }

  /** From the same state, different words lead to different states. */
  lemma RoundTellsWords(h: bv32, k: bv32, k': bv32)
    requires Round(h, k) == Round(h, k')
    ensures k == k'
  {
    hide Xor, Round, Rotl, Affine, Unaffine, Mix, Unmix;
    RoundBijective(h, k);
    RoundBijective(h, k');
    XorUndo(Rotl(Unaffine(Round(h, k)), 19), Mix(k));
    XorUndo(Rotl(Unaffine(Round(h, k')), 19), Mix(k'));
    MixBijective(k);
    MixBijective(k');
  }

  // ----- the whole hash as a fold over the words of the key -----

  function Body(key: seq<byte>, n: nat, seed: bv32): bv32 {
    if n == 0 then seed else Round(Body(key, n - 1, seed), Word(key, 4 * (n - 1)))
  }

  /** Murmur3A by one rule for every key length: fold the full words, xor in the zero-padded rest
      mixed like any word, xor in the length, finalize. */
  function Hash(key: seq<byte>, seed: bv32): bv32 {
    var n := |key| / 4;
    Fmix(Xor(Xor(Body(key, n, seed), Mix(Word(key, 4 * n))), LengthWord(|key|)))
  }

  function Unbody(key: seq<byte>, n: nat, h: bv32): bv32 {
    if n == 0 then h else Unbody(key, n - 1, Unround(h, Word(key, 4 * (n - 1))))
  }

  /** The seed under which `key` hashes to `h`. */
  function SeedFor(key: seq<byte>, h: bv32): bv32 {
    var n := |key| / 4;
    Unbody(key, n, Xor(Xor(Unfmix(h), LengthWord(|key|)), Mix(Word(key, 4 * n))))
  }

  lemma {:induction false} BodyBijective(key: seq<byte>, n: nat, h: bv32)
    ensures Unbody(key, n, Body(key, n, h)) == h && Body(key, n, Unbody(key, n, h)) == h
  {
    hide Round, Unround, Word;
    if n == 0 {
    } else {
      var w := Word(key, 4 * (n - 1));
      RoundBijective(Body(key, n - 1, h), w);
      RoundBijective(h, w);
      BodyBijective(key, n - 1, h);
      BodyBijective(key, n - 1, Unround(h, w));
    }
  }

  /** For each key, the hash is a bijection of the seed. */
  lemma SeedBijection(key: seq<byte>, x: bv32)
    ensures SeedFor(key, Hash(key, x)) == x && Hash(key, SeedFor(key, x)) == x
  {
    hide Xor, Body, Unbody, Fmix, Unfmix, Mix, Word, LengthWord;
    var n := |key| / 4;
    var t, l := Mix(Word(key, 4 * n)), LengthWord(|key|);
    var b := Body(key, n, x);
    FmixBijective(Xor(Xor(b, t), l));
    XorUndo(Xor(b, t), l);
    XorUndo(b, t);
    BodyBijective(key, n, x);
    var u := Xor(Xor(Unfmix(x), l), t);
    BodyBijective(key, n, u);
    XorUndo(Xor(Unfmix(x), l), t);
    XorUndo(Unfmix(x), l);
    FmixBijective(x);
  }

  lemma {:induction false} BodyAgrees(a: seq<byte>, b: seq<byte>, j: nat, n: nat, seed: bv32)
    requires DifferOnlyIn(a, b, 4 * j, 4 * j + 4) && n <= j
    ensures Body(a, n, seed) == Body(b, n, seed)
  {
    hide Round, Word;
    if n == 0 {
    } else {
      BodyAgrees(a, b, j, n - 1, seed);
      WordsAgree(a, b, 4 * j, 4 * j + 4, 4 * (n - 1));
    }
  }

  lemma {:induction false} BodyDiffers(a: seq<byte>, b: seq<byte>, j: nat, n: nat, seed: bv32)
    requires DifferOnlyIn(a, b, 4 * j, 4 * j + 4) && j < n
    ensures Body(a, n, seed) != Body(b, n, seed)
  {
    hide Round, Unround, Word, DifferOnlyIn;
    var v, w := Word(a, 4 * (n - 1)), Word(b, 4 * (n - 1));
    if j == n - 1 {
      BodyAgrees(a, b, j, n - 1, seed);
      WordsDiffer(a, b, j);
      if Round(Body(a, n - 1, seed), v) == Round(Body(a, n - 1, seed), w) {
        RoundTellsWords(Body(a, n - 1, seed), v, w);
      }
    } else {
      BodyDiffers(a, b, j, n - 1, seed);
      WordsAgree(a, b, 4 * j, 4 * j + 4, 4 * (n - 1));
      RoundBijective(Body(a, n - 1, seed), v);
      RoundBijective(Body(b, n - 1, seed), v);
    }
  }

  lemma WordsDiffer(a: seq<byte>, b: seq<byte>, j: nat)
    requires DifferOnlyIn(a, b, 4 * j, 4 * j + 4)
    ensures Word(a, 4 * j) != Word(b, 4 * j)
  {
    hide Word;
    var i := DifferSomewhere(a, b, 4 * j, 4 * j + 4);
    if Word(a, 4 * j) == Word(b, 4 * j) {
      WordInjective(a, b, 4 * j, i);
    }
  }

  /** Two keys of one length that differ only within one aligned block of 4 bytes, be it a full block
      or the rest at the end, never collide, whatever the seed. */
  lemma NoCollision(a: seq<byte>, b: seq<byte>, j: nat, seed: bv32)
    requires DifferOnlyIn(a, b, 4 * j, 4 * j + 4)
    ensures Hash(a, seed) != Hash(b, seed)
  {
    hide Xor, Body, Fmix, Unfmix, Mix, Unmix, Word, LengthWord;
    var n := |a| / 4;
    var x, y := Body(a, n, seed), Body(b, n, seed);
    var s, t := Mix(Word(a, 4 * n)), Mix(Word(b, 4 * n));
    var l := LengthWord(|a|);
    if j < n {
      BodyDiffers(a, b, j, n, seed);
      WordsAgree(a, b, 4 * j, 4 * j + 4, 4 * n);
      XorUndo(x, s);
      XorUndo(y, s);
    } else {
      BodyAgrees(a, b, j, n, seed);
      var i := DifferSomewhere(a, b, 4 * j, 4 * j + 4);
      assert j == n;
      WordsDiffer(a, b, j);
      MixBijective(Word(a, 4 * n));
      MixBijective(Word(b, 4 * n));
      XorUndo(x, s);
      XorUndo(x, t);
    }
    assert Xor(x, s) != Xor(y, t);
    XorUndo(Xor(x, s), l);
    XorUndo(Xor(y, t), l);
    FmixBijective(Xor(Xor(x, s), l));
    FmixBijective(Xor(Xor(y, t), l));
  }

  // ----- the function of the source -----

  method Murmur3A(key: seq<byte>, seed: bv32) returns (h1: bv32)
    ensures h1 == Hash(key, seed)
  {
    hide Xor, Fmix, Unfmix, Mix, Unmix, Round, Word;
    var nblocks := |key| / 4;
    h1 := seed;
    for i := 0 to nblocks
      invariant h1 == Body(key, i, seed)
    {
      var k1 := ReadWord(key[i * 4..]);
      ReadWordIsWord(key, i * 4);
      h1 := Round(h1, k1);
    }
    var tail := key[nblocks * 4..];
    WordOfRest(key, nblocks * 4, 0);
    if |tail| >= 1 {
      var k1 := Gather(tail, 0);
      h1 := Xor(h1, Mix(k1));
    } else {
      WordPastEnd(key, nblocks * 4);
      MixBijective(0);
      XorZero(h1);
    }
    h1 := Xor(h1, LengthWord(|key|));
    h1 := Fmix32(h1);
  }

  /** The hash.Hash32 object: each Write goes on from the current sum as seed. */
  class Digest {
    var sum: bv32

    constructor ()
      ensures sum == 0
    {
      sum := 0;
    }

    method Reset()
      modifies this
      ensures sum == 0
    {
      sum := 0;
    }

    method Write(p: seq<byte>) returns (n: nat)
      modifies this
      ensures sum == Hash(p, old(sum)) && n == |p|
    {
      sum := Murmur3A(p, sum);
      n := |p|;
    }
  }

  function Written(chunks: seq<seq<byte>>, sum: bv32): bv32 {
    if chunks == [] then sum else Written(chunks[1..], Hash(chunks[0], sum))
  }

  /** Digests with different sums still differ after the same writes, however many. */
  lemma {:induction false} DigestsStayApart(chunks: seq<seq<byte>>, x: bv32, y: bv32)
    requires x != y
    ensures Written(chunks, x) != Written(chunks, y)
  {
    hide Hash, SeedFor;
    if chunks == [] {
    } else {
      SeedBijection(chunks[0], x);
      SeedBijection(chunks[0], y);
      DigestsStayApart(chunks[1..], Hash(chunks[0], x), Hash(chunks[0], y));
    }
  }

  lemma TestSteps()
    ensures Round(0, 0x74736574) == 0x7985975b && Mix(0) == 0 && Fmix(0x7985975f) == 3127628307
  {
  }

  lemma TestWords()
    ensures Word([0x74, 0x65, 0x73, 0x74], 0) == 0x74736574 && Word([0x74, 0x65, 0x73, 0x74], 4) == 0
  {
  }

  /** The value hash/mmhash3_test.go expects for "test". */
  lemma TestVector()
    ensures Hash([0x74, 0x65, 0x73, 0x74], 0) == 3127628307
  {
    hide Mix, Round, Fmix, Word, LengthWord;
    TestWords();
    LengthOfFour();
    TestSteps();
    assert Body([0x74, 0x65, 0x73, 0x74], 1, 0) == Round(Body([0x74, 0x65, 0x73, 0x74], 0, 0), 0x74736574);
  }
}
