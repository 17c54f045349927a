/** The steps of the 64-bit variant of hash/mmhash3.go, each with its inverse. */
module MurmurWords64 {
  import opened MurmurWords32

  function Xor64(x: bv64, y: bv64): bv64 { x ^ y }
  function Add64(x: bv64, y: bv64): bv64 { x + y }
  function Sub64(x: bv64, y: bv64): bv64 { x - y }

  lemma Xor64Undo(x: bv64, y: bv64)
    ensures Xor64(Xor64(x, y), y) == x && Xor64(Xor64(x, y), x) == y && Xor64(x, 0) == x
  {
  }

  lemma Sums64Cancel(x: bv64, y: bv64)
    ensures (x + y) - y == x && (x - y) + y == x
  {
  }

  lemma Add64Undo(x: bv64, y: bv64)
    ensures Sub64(Add64(x, y), y) == x && Add64(Sub64(x, y), y) == x
  {
    Sums64Cancel(x, y);
    assert Add64(x, y) == x + y && Sub64(x, y) == x - y;
  }

  /** `r` is one of the constants 27, 31 and 33 in the source. */
  function Rotl64(x: bv64, r: bv8): bv64
    requires r <= 64
  {
    (x << r) | (x >> (64 - r))
  }

  function Xor33(x: bv64): bv64 { x ^ (x >> 33) }
  function MulA64(x: bv64): bv64 { x * 0xff51afd7ed558ccd }
  function UnmulA64(x: bv64): bv64 { x * 0x4f74430c22a54005 }
  function MulB64(x: bv64): bv64 { x * 0xc4ceb9fe1a85ec53 }
  function UnmulB64(x: bv64): bv64 { x * 0x9cb4b2f8129337db }

  lemma Xor33Undo(x: bv64)
    ensures Xor33(Xor33(x)) == x
  {
    assert Xor33(x ^ (x >> 33)) == x;
  }

  lemma Mul64Undo(x: bv64)
    ensures UnmulA64(MulA64(x)) == x && MulA64(UnmulA64(x)) == x
    ensures UnmulB64(MulB64(x)) == x && MulB64(UnmulB64(x)) == x
  {
    assert UnmulA64(x * 0xff51afd7ed558ccd) == x && MulA64(x * 0x4f74430c22a54005) == x;
    assert UnmulB64(x * 0xc4ceb9fe1a85ec53) == x && MulB64(x * 0x9cb4b2f8129337db) == x;
  }

  function Fmix64(h: bv64): bv64 {
    Xor33(MulB64(Xor33(MulA64(Xor33(h)))))
  }

  function Unfmix64(h: bv64): bv64 {
    Xor33(UnmulA64(Xor33(UnmulB64(Xor33(h)))))
  }

  /** The finalizer is a bijection on words. */
  lemma Fmix64Bijective(h: bv64)
    ensures Unfmix64(Fmix64(h)) == h && Fmix64(Unfmix64(h)) == h
  {
    hide Xor33, MulA64, UnmulA64, MulB64, UnmulB64;
    Xor33Undo(h);
    Mul64Undo(Xor33(h));
    Xor33Undo(MulA64(Xor33(h)));
    Mul64Undo(Xor33(MulA64(Xor33(h))));
    Xor33Undo(MulB64(Xor33(MulA64(Xor33(h)))));
    Xor33Undo(UnmulB64(Xor33(h)));
    Mul64Undo(Xor33(UnmulB64(Xor33(h))));
    Xor33Undo(UnmulA64(Xor33(UnmulB64(Xor33(h)))));
  }

  /** fmix64, which reassigns its word step by step. */
  method FmixStep64(h0: bv64) returns (h: bv64)
    ensures h == Fmix64(h0) && Unfmix64(h) == h0
  {
    hide Xor33, MulA64, MulB64, Unfmix64;
    Fmix64Bijective(h0);
    h := Xor33(h0);
    h := MulA64(h);
    h := Xor33(h);
    h := MulB64(h);
    h := Xor33(h);
  }

  // ----- words of a key -----

  function Join(lo: bv32, hi: bv32): bv64 {
    (lo as bv64) | ((hi as bv64) << 32)
  }

  lemma JoinSplits(lo: bv32, hi: bv32)
    ensures (Join(lo, hi) & 0xffff_ffff) as bv32 == lo && (Join(lo, hi) >> 32) as bv32 == hi
  {
  }

  lemma JoinInjective(a: bv32, b: bv32, c: bv32, d: bv32)
    ensures Join(a, b) == Join(c, d) ==> a == c && b == d
  {
    hide Join;
    JoinSplits(a, b);
    JoinSplits(c, d);
  }

  /** The little-endian 8-byte word at `i` of the key continued by zeros. */
  function Word64(key: seq<byte>, i: nat): bv64 {
    Join(Word(key, i), Word(key, i + 4))
  }

  function Little64(b0: byte, b1: byte, b2: byte, b3: byte, b4: byte, b5: byte, b6: byte, b7: byte): bv64 {
    (b0 as bv64) | ((b1 as bv64) << 8) | ((b2 as bv64) << 16) | ((b3 as bv64) << 24) |
    ((b4 as bv64) << 32) | ((b5 as bv64) << 40) | ((b6 as bv64) << 48) | ((b7 as bv64) << 56)
  }

  /** binary.LittleEndian.Uint64. */
  function ReadWord64(b: seq<byte>): bv64
    requires |b| >= 8
  {
    Little64(b[0], b[1], b[2], b[3], b[4], b[5], b[6], b[7])
  }

  lemma JoinReads(b0: byte, b1: byte, b2: byte, b3: byte, b4: byte, b5: byte, b6: byte, b7: byte)
    ensures Join(Little(b0, b1, b2, b3), Little(b4, b5, b6, b7)) == Little64(b0, b1, b2, b3, b4, b5, b6, b7)
  {
  }

  lemma ReadWord64IsWord(key: seq<byte>, i: nat)
    requires i + 8 <= |key|
    ensures ReadWord64(key[i..]) == Word64(key, i)
  {
    hide Join, Little, Little64;
    JoinReads(key[i], key[i + 1], key[i + 2], key[i + 3], key[i + 4], key[i + 5], key[i + 6], key[i + 7]);
  }

  lemma Word64OfRest(key: seq<byte>, i: nat, j: nat)
    requires i <= |key|
    ensures Word64(key[i..], j) == Word64(key, i + j)
  {
    hide Word, Join;
    WordOfRest(key, i, j);
    WordOfRest(key, i, j + 4);
  }

  lemma Word64PastEnd(key: seq<byte>, i: nat)
    requires |key| <= i
    ensures Word64(key, i) == 0
  {
    hide Word;
    WordPastEnd(key, i);
    WordPastEnd(key, i + 4);
  }

  lemma Words64Agree(a: seq<byte>, b: seq<byte>, lo: nat, hi: nat, i: nat)
    requires DifferOnlyIn(a, b, lo, hi) && (i + 8 <= lo || hi <= i)
    ensures Word64(a, i) == Word64(b, i)
  {
    hide Word, DifferOnlyIn;
    WordsAgree(a, b, lo, hi, i);
    WordsAgree(a, b, lo, hi, i + 4);
  }

  lemma Word64Injective(a: seq<byte>, b: seq<byte>, i: nat, j: nat)
    requires Word64(a, i) == Word64(b, i) && i <= j < i + 8
    ensures Padded(a, j) == Padded(b, j)
  {
    hide Word, Join, Padded;
    JoinInjective(Word(a, i), Word(a, i + 4), Word(b, i), Word(b, i + 4));
    if j < i + 4 {
      WordInjective(a, b, i, j);
    } else {
      WordInjective(a, b, i + 4, j);
    }
  }

  function LengthWord64(n: nat): bv64 {
    (n % 0x1_0000_0000_0000_0000) as bv64
  }

  lemma LengthWord64Is(n: nat)
    requires n < 0x1_0000_0000_0000_0000
    ensures LengthWord64(n) == n as bv64
  {
    assert n % 0x1_0000_0000_0000_0000 == n;
  }

  lemma LengthWord64Wraps(n: nat)
    ensures LengthWord64(n + 0x1_0000_0000_0000_0000) == LengthWord64(n)
  {
    assert (n + 0x1_0000_0000_0000_0000) % 0x1_0000_0000_0000_0000 == n % 0x1_0000_0000_0000_0000;
  }

  /** The cases of the fallthrough switch that gather the last bytes of a key into one word, from
      the highest byte that is there down to byte `off`. */
  method Gather64(tail: seq<byte>, off: nat) returns (k: bv64)
    requires off < |tail|
    ensures k == Word64(tail, off)
  {
    k := 0;
    if |tail| >= off + 8 {
      k := k ^ ((tail[off + 7] as bv64) << 56);
    }
    if |tail| >= off + 7 {
      k := k ^ ((tail[off + 6] as bv64) << 48);
    }
    if |tail| >= off + 6 {
      k := k ^ ((tail[off + 5] as bv64) << 40);
    }
    if |tail| >= off + 5 {
      k := k ^ ((tail[off + 4] as bv64) << 32);
    }
    if |tail| >= off + 4 {
      k := k ^ ((tail[off + 3] as bv64) << 24);
    }
    if |tail| >= off + 3 {
      k := k ^ ((tail[off + 2] as bv64) << 16);
    }
    if |tail| >= off + 2 {
      k := k ^ ((tail[off + 1] as bv64) << 8);
    }
    k := k ^ (tail[off] as bv64);
  }
}

/** Murmur3F: MurmurHash3_x64_128, two 64-bit lanes. */
module Murmur3F {
  import opened MurmurWords32
  import opened MurmurWords64

  datatype Pair = Pair(h1: bv64, h2: bv64)

  // ----- the steps of the two lanes; `one` selects the first -----

  function Mul(one: bool, k: bv64): bv64 {
    if one then k * 0x87c37b91114253d5 else k * 0x4cf5ad432745937f
  }

  function Unmul(one: bool, k: bv64): bv64 {
    if one then k * 0xa98409e882ce4d7d else k * 0xa81e14edd9de2c7f
  }

  function TurnWord(one: bool, x: bv64): bv64 {
    if one then Rotl64(x, 31) else Rotl64(x, 33)
  }

  function TurnState(one: bool, x: bv64): bv64 {
    if one then Rotl64(x, 27) else Rotl64(x, 31)
  }

  function UnturnState(one: bool, x: bv64): bv64 {
    if one then Rotl64(x, 37) else Rotl64(x, 33)
  }

  function Affine(one: bool, h: bv64): bv64 {
    if one then h * 5 + 0x52dce729 else h * 5 + 0x38495ab5
  }

  function Unaffine(one: bool, h: bv64): bv64 {
    if one then (h - 0x52dce729) * 0xcccccccccccccccd else (h - 0x38495ab5) * 0xcccccccccccccccd
  }

  lemma MulUndo(one: bool, x: bv64)
    ensures Unmul(one, Mul(one, x)) == x
  {
    assert Unmul(true, x * 0x87c37b91114253d5) == x;
    assert Unmul(false, x * 0x4cf5ad432745937f) == x;
  }

  lemma AffineUndo(one: bool, x: bv64)
    ensures Unaffine(one, Affine(one, x)) == x
  {
    assert Unaffine(true, x * 5 + 0x52dce729) == x;
    assert Unaffine(false, x * 5 + 0x38495ab5) == x;
  }

  lemma TurnsUndo(one: bool, x: bv64)
    ensures TurnWord(!one, TurnWord(one, x)) == x && UnturnState(one, TurnState(one, x)) == x
  {
    assert Rotl64((x << 31) | (x >> 33), 33) == x;
    assert Rotl64((x << 33) | (x >> 31), 31) == x;
    assert Rotl64((x << 27) | (x >> 37), 37) == x;
  }

  function Mix(one: bool, k: bv64): bv64 {
    Mul(!one, TurnWord(one, Mul(one, k)))
  }

  function Unmix(one: bool, k: bv64): bv64 {
    Unmul(one, TurnWord(!one, Unmul(!one, k)))
  }

  lemma MixInvertible(one: bool, k: bv64)
    ensures Unmix(one, Mix(one, k)) == k
  {
    hide Mul, Unmul, TurnWord;
    MulUndo(one, k);
    TurnsUndo(one, Mul(one, k));
    MulUndo(!one, TurnWord(one, Mul(one, k)));
  }

  lemma MixZero(one: bool)
    ensures Mix(one, 0) == 0
  {
    assert Mul(true, 0) == 0 && Mul(false, 0) == 0;
    assert TurnWord(true, 0) == 0 && TurnWord(false, 0) == 0;
    hide Mul, TurnWord;
  }

  function Turn(one: bool, h: bv64, m: bv64, n: bv64): bv64 {
    Affine(one, Add64(TurnState(one, Xor64(h, m)), n))
  }

  function Unturn(one: bool, h: bv64, m: bv64, n: bv64): bv64 {
    Xor64(UnturnState(one, Sub64(Unaffine(one, h), n)), m)
  }

  lemma TurnInvertible(one: bool, h: bv64, m: bv64, n: bv64)
    ensures Unturn(one, Turn(one, h, m, n), m, n) == h && Unturn(one, Turn(one, h, m, n), h, n) == m
  {
    hide Affine, Unaffine, TurnState, UnturnState, Xor64, Add64, Sub64;
    AffineUndo(one, Add64(TurnState(one, Xor64(h, m)), n));
    Add64Undo(TurnState(one, Xor64(h, m)), n);
    TurnsUndo(one, Xor64(h, m));
    Xor64Undo(h, m);
  }

  // ----- both lanes -----

  /** One round of the body; the second lane already adds the new first one. */
  function Round(s: Pair, w: Pair): Pair {
    var h1 := Turn(true, s.h1, Mix(true, w.h1), s.h2);
    Pair(h1, Turn(false, s.h2, Mix(false, w.h2), h1))
  }

  function Unround(s: Pair, w: Pair): Pair {
    var h2 := Unturn(false, s.h2, Mix(false, w.h2), s.h1);
    Pair(Unturn(true, s.h1, Mix(true, w.h1), h2), h2)
  }

  lemma RoundInvertible(s: Pair, w: Pair)
    ensures Unround(Round(s, w), w) == s
  {
    hide Turn, Unturn, Mix;
    TurnInvertible(true, s.h1, Mix(true, w.h1), s.h2);
    TurnInvertible(false, s.h2, Mix(false, w.h2), Round(s, w).h1);
  }

  lemma TurnTellsWords(one: bool, h: bv64, k: bv64, k': bv64, n: bv64)
    requires Turn(one, h, Mix(one, k), n) == Turn(one, h, Mix(one, k'), n)
    ensures k == k'
  {
    hide Turn, Unturn, Mix, Unmix;
    TurnInvertible(one, h, Mix(one, k), n);
    TurnInvertible(one, h, Mix(one, k'), n);
    MixInvertible(one, k);
    MixInvertible(one, k');
  }

  /** From the same state, different blocks lead to different states. */
  lemma RoundTellsBlocks(s: Pair, w: Pair, w': Pair)
    requires Round(s, w) == Round(s, w')
    ensures w == w'
  {
    hide Turn, Mix;
    TurnTellsWords(true, s.h1, w.h1, w'.h1, s.h2);
    TurnTellsWords(false, s.h2, w.h2, w'.h2, Round(s, w).h1);
  }

  /** Xoring the words of the last, partial block into the lanes. */
  function Absorb(s: Pair, w: Pair): Pair {
    Pair(Xor64(s.h1, Mix(true, w.h1)), Xor64(s.h2, Mix(false, w.h2)))
  }

  lemma AbsorbInjective(s: Pair, w: Pair, s': Pair, w': Pair)
    requires Absorb(s, w) == Absorb(s', w') && (s == s' || w == w')
    ensures s == s' && w == w'
  {
    hide Xor64, Mix, Unmix;
    Xor64Undo(s.h1, Mix(true, w.h1));
    Xor64Undo(s.h2, Mix(false, w.h2));
    Xor64Undo(s'.h1, Mix(true, w'.h1));
    Xor64Undo(s'.h2, Mix(false, w'.h2));
    MixInvertible(true, w.h1);
    MixInvertible(true, w'.h1);
    MixInvertible(false, w.h2);
    MixInvertible(false, w'.h2);
  }

  // ----- finalization -----

  function Stamp(s: Pair, l: bv64): Pair {
    Pair(Xor64(s.h1, l), Xor64(s.h2, l))
  }

  function Spread(s: Pair): Pair {
    var t := Add64(s.h1, s.h2);
    Pair(t, Add64(s.h2, t))
  }

  function Unspread(s: Pair): Pair {
    var h2 := Sub64(s.h2, s.h1);
    Pair(Sub64(s.h1, h2), h2)
  }

  lemma SpreadInvertible(s: Pair)
    ensures Unspread(Spread(s)) == s
  {
    hide Add64, Sub64;
    Add64Undo(s.h1, s.h2);
    Add64Undo(s.h2, Spread(s).h1);
  }

  function FmixBoth(s: Pair): Pair {
    Pair(Fmix64(s.h1), Fmix64(s.h2))
  }

  function Finish(s: Pair, l: bv64): Pair {
    Spread(FmixBoth(Spread(Stamp(s, l))))
  }

  lemma FmixBothInjective(s: Pair, s': Pair)
    requires FmixBoth(s) == FmixBoth(s')
    ensures s == s'
  {
    hide Fmix64, Unfmix64;
    Fmix64Bijective(s.h1);
    Fmix64Bijective(s.h2);
    Fmix64Bijective(s'.h1);
    Fmix64Bijective(s'.h2);
  }

  lemma FinishInjective(s: Pair, s': Pair, l: bv64)
    requires Finish(s, l) == Finish(s', l)
    ensures s == s'
  {
    hide Spread, Unspread, FmixBoth, Xor64;
    SpreadInvertible(FmixBoth(Spread(Stamp(s, l))));
    SpreadInvertible(FmixBoth(Spread(Stamp(s', l))));
    FmixBothInjective(Spread(Stamp(s, l)), Spread(Stamp(s', l)));
    SpreadInvertible(Stamp(s, l));
    SpreadInvertible(Stamp(s', l));
    Xor64Undo(s.h1, l);
    Xor64Undo(s.h2, l);
    Xor64Undo(s'.h1, l);
    Xor64Undo(s'.h2, l);
  }

  // ----- the whole hash as a fold over 16-byte blocks -----

  /** Block `i` of the key continued by zeros. */
  function Block(key: seq<byte>, i: nat): Pair {
    Pair(Word64(key, 16 * i), Word64(key, 16 * i + 8))
  }

  function Body(key: seq<byte>, n: nat, seed: bv64): Pair {
    if n == 0 then Pair(seed, seed) else Round(Body(key, n - 1, seed), Block(key, n - 1))
  }

  /** Murmur3F by one rule for every key length. */
  function Hash(key: seq<byte>, seed: bv64): Pair {
    var n := |key| / 16;
    Finish(Absorb(Body(key, n, seed), Block(key, n)), LengthWord64(|key|))
  }

  lemma BlocksAgree(a: seq<byte>, b: seq<byte>, j: nat, i: nat)
    requires DifferOnlyIn(a, b, 16 * j, 16 * j + 16) && i != j
    ensures Block(a, i) == Block(b, i)
  {
    hide Word64, DifferOnlyIn;
    Words64Agree(a, b, 16 * j, 16 * j + 16, 16 * i);
    Words64Agree(a, b, 16 * j, 16 * j + 16, 16 * i + 8);
  }

  lemma BlocksDiffer(a: seq<byte>, b: seq<byte>, j: nat)
    requires DifferOnlyIn(a, b, 16 * j, 16 * j + 16)
    ensures Block(a, j) != Block(b, j)
  {
    hide Word64, DifferOnlyIn;
    var i := DifferSomewhere(a, b, 16 * j, 16 * j + 16);
    var o := if i < 16 * j + 8 then 0 else 8;
    if Word64(a, 16 * j + o) == Word64(b, 16 * j + o) {
      Word64Injective(a, b, 16 * j + o, i);
    }
  }

  lemma {:induction false} BodyAgrees(a: seq<byte>, b: seq<byte>, j: nat, n: nat, seed: bv64)
    requires DifferOnlyIn(a, b, 16 * j, 16 * j + 16) && n <= j
    ensures Body(a, n, seed) == Body(b, n, seed)
  {
    hide Round, Block, DifferOnlyIn;
    if n == 0 {
    } else {
      BodyAgrees(a, b, j, n - 1, seed);
      BlocksAgree(a, b, j, n - 1);
    }
  }

  lemma {:induction false} BodyDiffers(a: seq<byte>, b: seq<byte>, j: nat, n: nat, seed: bv64)
    requires DifferOnlyIn(a, b, 16 * j, 16 * j + 16) && j < n
    ensures Body(a, n, seed) != Body(b, n, seed)
  {
    hide Round, Unround, Block, DifferOnlyIn;
    var s, t := Body(a, n - 1, seed), Body(b, n - 1, seed);
    if j == n - 1 {
      BodyAgrees(a, b, j, n - 1, seed);
      BlocksDiffer(a, b, j);
      if Round(s, Block(a, j)) == Round(s, Block(b, j)) {
        RoundTellsBlocks(s, Block(a, j), Block(b, j));
      }
    } else {
      BodyDiffers(a, b, j, n - 1, seed);
      BlocksAgree(a, b, j, n - 1);
      RoundInvertible(s, Block(a, n - 1));
      RoundInvertible(t, Block(a, n - 1));
    }
  }

  /** Two keys of one length that differ only within one aligned block of 16 bytes, be it a full
      block or the rest at the end, never have the same two-word hash, whatever the seed. */
  lemma NoCollision(a: seq<byte>, b: seq<byte>, j: nat, seed: bv64)
    requires DifferOnlyIn(a, b, 16 * j, 16 * j + 16)
    ensures Hash(a, seed) != Hash(b, seed)
  {
    hide Finish, Absorb, Body, Block, LengthWord64;
    var n := |a| / 16;
    var s, t := Body(a, n, seed), Body(b, n, seed);
    if j < n {
      BodyDiffers(a, b, j, n, seed);
      BlocksAgree(a, b, j, n);
    } else {
      var i := DifferSomewhere(a, b, 16 * j, 16 * j + 16);
      assert j == n;
      BodyAgrees(a, b, j, n, seed);
      BlocksDiffer(a, b, j);
    }
    if Hash(a, seed) == Hash(b, seed) {
      FinishInjective(Absorb(s, Block(a, n)), Absorb(t, Block(b, n)), LengthWord64(|a|));
      AbsorbInjective(s, Block(a, n), t, Block(b, n));
    }
  }

  // ----- the function of the source -----

  lemma ReadBlock(key: seq<byte>, i: nat)
    requires 16 * i + 16 <= |key|
    ensures Block(key, i) == Pair(ReadWord64(key[16 * i..]), ReadWord64(key[16 * i + 8..]))
  {
    hide Word64, ReadWord64;
    ReadWord64IsWord(key, 16 * i);
    ReadWord64IsWord(key, 16 * i + 8);
  }

  /** A lane that the switch does not reach would have absorbed a zero word. */
  lemma NothingAbsorbed(one: bool, h: bv64, tail: seq<byte>, off: nat)
    requires |tail| <= off
    ensures Xor64(h, Mix(one, Word64(tail, off))) == h
  {
    hide Mix, Word64, Xor64;
    Word64PastEnd(tail, off);
    MixZero(one);
    Xor64Undo(h, 0);
  }

  /** The tail switch: the second lane first, as far as there are bytes. */
  method AbsorbTail(s: Pair, tail: seq<byte>) returns (t: Pair)
    ensures t == Absorb(s, Pair(Word64(tail, 0), Word64(tail, 8)))
  {
    hide Mix, Xor64, Word64;
    var Pair(h1, h2) := s;
    if |tail| > 8 {
      var k2 := Gather64(tail, 8);
      h2 := Xor64(h2, Mix(false, k2));
    } else {
      NothingAbsorbed(false, h2, tail, 8);
    }
    if |tail| > 0 {
      var k1 := Gather64(tail, 0);
      h1 := Xor64(h1, Mix(true, k1));
    } else {
      NothingAbsorbed(true, h1, tail, 0);
    }
    t := Pair(h1, h2);
  }

  method Murmur3F(key: seq<byte>, seed: bv64) returns (h1: bv64, h2: bv64)
    ensures Pair(h1, h2) == Hash(key, seed)
  {
    hide Mul, TurnWord, TurnState, Xor64, Add64, Affine, Word64, ReadWord64, Block, Fmix64, Absorb, Unfmix64;
    var nblocks := |key| / 16;
    h1, h2 := seed, seed;
    for i := 0 to nblocks
      invariant Pair(h1, h2) == Body(key, i, seed)
    {
      var k1 := ReadWord64(key[(i * 2 + 0) * 8..]);
      var k2 := ReadWord64(key[(i * 2 + 1) * 8..]);
      ReadBlock(key, i);

      k1 := Mul(true, k1);
      k1 := TurnWord(true, k1);
      k1 := Mul(false, k1);
      h1 := Xor64(h1, k1);

      h1 := TurnState(true, h1);
      h1 := Add64(h1, h2);
      h1 := Affine(true, h1);

      k2 := Mul(false, k2);
      k2 := TurnWord(false, k2);
      k2 := Mul(true, k2);
      h2 := Xor64(h2, k2);

      h2 := TurnState(false, h2);
      h2 := Add64(h2, h1);
      h2 := Affine(false, h2);
    }
    RestBlock(key, nblocks);
    var t := AbsorbTail(Pair(h1, h2), key[nblocks * 16..]);
    h1, h2 := t.h1, t.h2;

    h1 := Xor64(h1, LengthWord64(|key|));
    h2 := Xor64(h2, LengthWord64(|key|));

    h1 := Add64(h1, h2);
    h2 := Add64(h2, h1);

    h1 := FmixStep64(h1);
    h2 := FmixStep64(h2);

    h1 := Add64(h1, h2);
    h2 := Add64(h2, h1);
  }

  lemma RestBlock(key: seq<byte>, n: nat)
    requires 16 * n <= |key|
    ensures Block(key, n) == Pair(Word64(key[16 * n..], 0), Word64(key[16 * n..], 8))
  {
    hide Word64;
    Word64OfRest(key, 16 * n, 0);
    Word64OfRest(key, 16 * n, 8);
  }

  lemma TestSteps()
    ensures Mix(true, 0x74736574) == 0x1c7bfd39450a1b57 && Mix(false, 0) == 0
    ensures Fmix64(0x1c7bfd39450a1b57) == 0xbee7cf66efbe75b8
    ensures Fmix64(0x1c7bfd39450a1b5b) == 0xed95596584ff6be5
  {
  }

  lemma TestBlock()
    ensures Block([0x74, 0x65, 0x73, 0x74], 0) == Pair(0x74736574, 0)
  {
  }

  lemma TestLength()
    ensures LengthWord64(4) == 4
  {
    assert 4 % 0x1_0000_0000_0000_0000 == 4;
  }

  /** The value hash/mmhash3_test.go expects for "test". */
  lemma TestVector()
    ensures Hash([0x74, 0x65, 0x73, 0x74], 0) == Pair(12429135405209477533, 11102079182576635266)
  {
    hide Mix, Fmix64, Block, LengthWord64;
    TestBlock();
    TestLength();
    TestSteps();
    assert Body([0x74, 0x65, 0x73, 0x74], 0, 0) == Pair(0, 0);
  }
}
