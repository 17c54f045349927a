/** Murmur3C: MurmurHash3_x86_128, four 32-bit lanes. */
module Murmur3C {
  import opened MurmurWords32

  datatype Lane = L1 | L2 | L3 | L4

  datatype Quad = Quad(h1: bv32, h2: bv32, h3: bv32, h4: bv32)

  // ----- one lane -----

  /** Multiplication by the constant c1, c2, c3 or c4. */
  function Mul(i: Lane, k: bv32): bv32 {
    match i
    case L1 => k * 0x239b961b
    case L2 => k * 0xab0e9789
    case L3 => k * 0x38b34ae5
    case L4 => k * 0xa1e38b93
  }

  function Unmul(i: Lane, k: bv32): bv32 {
    match i
    case L1 => k * 0x89c95413
    case L2 => k * 0xdf130eb9
    case L3 => k * 0x747862ed
    case L4 => k * 0x58d64a9b
  }

  function Affine(i: Lane, h: bv32): bv32 {
    match i
    case L1 => h * 5 + 0x561ccd1b
    case L2 => h * 5 + 0x0bcaa747
    case L3 => h * 5 + 0x96cd1c35
    case L4 => h * 5 + 0x32ac3b17
  }

  function Unaffine(i: Lane, h: bv32): bv32 {
    match i
    case L1 => (h - 0x561ccd1b) * 0xcccccccd
    case L2 => (h - 0x0bcaa747) * 0xcccccccd
    case L3 => (h - 0x96cd1c35) * 0xcccccccd
    case L4 => (h - 0x32ac3b17) * 0xcccccccd
  }

  // The solver cancels a step against its inverse when the inner one is written out.

  lemma MulsUndo(x: bv32)
    ensures Unmul(L1, x * 0x239b961b) == x && Mul(L1, x * 0x89c95413) == x
    ensures Unmul(L2, x * 0xab0e9789) == x && Mul(L2, x * 0xdf130eb9) == x
    ensures Unmul(L3, x * 0x38b34ae5) == x && Mul(L3, x * 0x747862ed) == x
    ensures Unmul(L4, x * 0xa1e38b93) == x && Mul(L4, x * 0x58d64a9b) == x
  {
  }

  lemma MulUndo(i: Lane, x: bv32)
    ensures Unmul(i, Mul(i, x)) == x && Mul(i, Unmul(i, x)) == x
  {
    MulsUndo(x);
  }

  lemma AffinesUndo(x: bv32)
    ensures Unaffine(L1, x * 5 + 0x561ccd1b) == x && Affine(L1, (x - 0x561ccd1b) * 0xcccccccd) == x
    ensures Unaffine(L2, x * 5 + 0x0bcaa747) == x && Affine(L2, (x - 0x0bcaa747) * 0xcccccccd) == x
    ensures Unaffine(L3, x * 5 + 0x96cd1c35) == x && Affine(L3, (x - 0x96cd1c35) * 0xcccccccd) == x
    ensures Unaffine(L4, x * 5 + 0x32ac3b17) == x && Affine(L4, (x - 0x32ac3b17) * 0xcccccccd) == x
  {
  }

  lemma AffineUndo(i: Lane, x: bv32)
    ensures Unaffine(i, Affine(i, x)) == x && Affine(i, Unaffine(i, x)) == x
  {
    AffinesUndo(x);
  }

  function Next(i: Lane): Lane {
    match i
    case L1 => L2
    case L2 => L3
    case L3 => L4
    case L4 => L1
  }

  function WordTurn(i: Lane): (r: bv8)
    ensures 0 < r < 32
  {
    match i
    case L1 => 15
    case L2 => 16
    case L3 => 17
    case L4 => 18
  }

  function StateTurn(i: Lane): (r: bv8)
    ensures 0 < r < 32
  {
    match i
    case L1 => 19
    case L2 => 17
    case L3 => 15
    case L4 => 13
  }

  function TurnWord(i: Lane, x: bv32): bv32 { Rotl(x, WordTurn(i)) }
  function UnturnWord(i: Lane, x: bv32): bv32 { Rotl(x, 32 - WordTurn(i)) }
  function TurnState(i: Lane, x: bv32): bv32 { Rotl(x, StateTurn(i)) }
  function UnturnState(i: Lane, x: bv32): bv32 { Rotl(x, 32 - StateTurn(i)) }

  lemma TurnsUndo(i: Lane, x: bv32)
    ensures UnturnWord(i, TurnWord(i, x)) == x && TurnWord(i, UnturnWord(i, x)) == x
    ensures UnturnState(i, TurnState(i, x)) == x && TurnState(i, UnturnState(i, x)) == x
  {
    hide Rotl;
    match i
    case L1 => RotlUndo(x, 15); RotlUndo(x, 17); RotlUndo(x, 19); RotlUndo(x, 13);
    case L2 => RotlUndo(x, 16); RotlUndo(x, 17); RotlUndo(x, 15);
    case L3 => RotlUndo(x, 17); RotlUndo(x, 15);
    case L4 => RotlUndo(x, 18); RotlUndo(x, 14); RotlUndo(x, 13); RotlUndo(x, 19);
  }

  /** What is done to the word of lane `i` before it is xored into the lane. */
  function Mix(i: Lane, k: bv32): bv32 {
    Mul(Next(i), TurnWord(i, Mul(i, k)))
  }

  function Unmix(i: Lane, k: bv32): bv32 {
    Unmul(i, UnturnWord(i, Unmul(Next(i), k)))
  }

  lemma MixBijective(i: Lane, k: bv32)
    ensures Unmix(i, Mix(i, k)) == k && Mix(i, Unmix(i, k)) == k
  {
    hide Mul, Unmul, TurnWord, UnturnWord;
    MulUndo(i, k);
    TurnsUndo(i, Mul(i, k));
    MulUndo(Next(i), TurnWord(i, Mul(i, k)));
    MulUndo(Next(i), k);
    TurnsUndo(i, Unmul(Next(i), k));
    MulUndo(i, UnturnWord(i, Unmul(Next(i), k)));
  }

  lemma MixZero(i: Lane)
    ensures Mix(i, 0) == 0
  {
    MulZero(i);
    MulZero(Next(i));
    TurnZero(i);
    hide Mul, TurnWord;
  }

  lemma MulZero(i: Lane)
    ensures Mul(i, 0) == 0
  {
  }

  lemma TurnZero(i: Lane)
    ensures TurnWord(i, 0) == 0
  {
  }

  /** Lane `i` in one round: the mixed word `m` goes in, and the lane `n` is added. */
  function Turn(i: Lane, h: bv32, m: bv32, n: bv32): bv32 {
    Affine(i, Add(TurnState(i, Xor(h, m)), n))
  }

  function Unturn(i: Lane, h: bv32, m: bv32, n: bv32): bv32 {
    Xor(UnturnState(i, Sub(Unaffine(i, h), n)), m)
  }

  lemma TurnBijective(i: Lane, h: bv32, m: bv32, n: bv32)
    ensures Unturn(i, Turn(i, h, m, n), m, n) == h && Turn(i, Unturn(i, h, m, n), m, n) == h
    ensures Unturn(i, Turn(i, h, m, n), h, n) == m
  {
    hide Affine, Unaffine, TurnState, UnturnState, Xor, Add, Sub;
    AffineUndo(i, Add(TurnState(i, Xor(h, m)), n));
    AddUndo(TurnState(i, Xor(h, m)), n);
    TurnsUndo(i, Xor(h, m));
    XorUndo(h, m);
    var x := Sub(Unaffine(i, h), n);
    XorUndo(UnturnState(i, x), m);
    TurnsUndo(i, x);
    AddUndo(Unaffine(i, h), n);
    AffineUndo(i, h);
  }

  // ----- all four lanes -----

  /** One round of the body; the last lane already adds the new first one. */
  function Round(s: Quad, w: Quad): Quad {
    var h1 := Turn(L1, s.h1, Mix(L1, w.h1), s.h2);
    var h2 := Turn(L2, s.h2, Mix(L2, w.h2), s.h3);
    var h3 := Turn(L3, s.h3, Mix(L3, w.h3), s.h4);
    Quad(h1, h2, h3, Turn(L4, s.h4, Mix(L4, w.h4), h1))
  }

  function Unround(s: Quad, w: Quad): Quad {
    var h4 := Unturn(L4, s.h4, Mix(L4, w.h4), s.h1);
    var h3 := Unturn(L3, s.h3, Mix(L3, w.h3), h4);
    var h2 := Unturn(L2, s.h2, Mix(L2, w.h2), h3);
    Quad(Unturn(L1, s.h1, Mix(L1, w.h1), h2), h2, h3, h4)
  }

  lemma RoundInvertible(s: Quad, w: Quad)
    ensures Unround(Round(s, w), w) == s
  {
    hide Turn, Unturn, Mix;
    TurnBijective(L1, s.h1, Mix(L1, w.h1), s.h2);
    TurnBijective(L2, s.h2, Mix(L2, w.h2), s.h3);
    TurnBijective(L3, s.h3, Mix(L3, w.h3), s.h4);
    TurnBijective(L4, s.h4, Mix(L4, w.h4), Round(s, w).h1);
  }

  lemma TurnTellsWords(i: Lane, h: bv32, k: bv32, k': bv32, n: bv32)
    requires Turn(i, h, Mix(i, k), n) == Turn(i, h, Mix(i, k'), n)
    ensures k == k'
  {
    hide Turn, Unturn, Mix, Unmix;
    TurnBijective(i, h, Mix(i, k), n);
    TurnBijective(i, h, Mix(i, k'), n);
    MixBijective(i, k);
    MixBijective(i, k');
  }

  /** From the same state, different blocks lead to different states. */
  lemma RoundTellsBlocks(s: Quad, w: Quad, w': Quad)
    requires Round(s, w) == Round(s, w')
    ensures w == w'
  {
    hide Turn, Mix;
    TurnTellsWords(L1, s.h1, w.h1, w'.h1, s.h2);
    TurnTellsWords(L2, s.h2, w.h2, w'.h2, s.h3);
    TurnTellsWords(L3, s.h3, w.h3, w'.h3, s.h4);
    TurnTellsWords(L4, s.h4, w.h4, w'.h4, Round(s, w).h1);
  }

  /** Xoring the words of the last, partial block into the lanes. */
  function Absorb(s: Quad, w: Quad): Quad {
    Quad(Xor(s.h1, Mix(L1, w.h1)), Xor(s.h2, Mix(L2, w.h2)), Xor(s.h3, Mix(L3, w.h3)), Xor(s.h4, Mix(L4, w.h4)))
  }

  lemma AbsorbInjective(s: Quad, w: Quad, s': Quad, w': Quad)
    requires Absorb(s, w) == Absorb(s', w') && (s == s' || w == w')
    ensures s == s' && w == w'
  {
    hide Xor, Mix, Unmix;
    XorUndo(s.h1, Mix(L1, w.h1));
    XorUndo(s.h2, Mix(L2, w.h2));
    XorUndo(s.h3, Mix(L3, w.h3));
    XorUndo(s.h4, Mix(L4, w.h4));
    XorUndo(s'.h1, Mix(L1, w'.h1));
    XorUndo(s'.h2, Mix(L2, w'.h2));
    XorUndo(s'.h3, Mix(L3, w'.h3));
    XorUndo(s'.h4, Mix(L4, w'.h4));
    QuadMixInjective(w, w');
  }

  lemma QuadMixInjective(w: Quad, w': Quad)
    requires Mix(L1, w.h1) == Mix(L1, w'.h1) && Mix(L2, w.h2) == Mix(L2, w'.h2)
    requires Mix(L3, w.h3) == Mix(L3, w'.h3) && Mix(L4, w.h4) == Mix(L4, w'.h4)
    ensures w == w'
  {
    hide Mix, Unmix;
    MixBijective(L1, w.h1);
    MixBijective(L1, w'.h1);
    MixBijective(L2, w.h2);
    MixBijective(L2, w'.h2);
    MixBijective(L3, w.h3);
    MixBijective(L3, w'.h3);
    MixBijective(L4, w.h4);
    MixBijective(L4, w'.h4);
  }

  // ----- finalization -----

  function Stamp(s: Quad, l: bv32): Quad {
    Quad(Xor(s.h1, l), Xor(s.h2, l), Xor(s.h3, l), Xor(s.h4, l))
  }

  lemma StampInvertible(s: Quad, l: bv32)
    ensures Stamp(Stamp(s, l), l) == s
  {
    hide Xor;
    XorUndo(s.h1, l);
    XorUndo(s.h2, l);
    XorUndo(s.h3, l);
    XorUndo(s.h4, l);
  }

  /** The first lane collects the others and is then added to each of them. */
  function Spread(s: Quad): Quad {
    var t := Add(Add(Add(s.h1, s.h2), s.h3), s.h4);
    Quad(t, Add(s.h2, t), Add(s.h3, t), Add(s.h4, t))
  }

  function Unspread(s: Quad): Quad {
    var h2, h3, h4 := Sub(s.h2, s.h1), Sub(s.h3, s.h1), Sub(s.h4, s.h1);
    Quad(Sub(Sub(Sub(s.h1, h4), h3), h2), h2, h3, h4)
  }

  lemma SpreadInvertible(s: Quad)
    ensures Unspread(Spread(s)) == s
  {
    hide Add, Sub;
    var t := Spread(s).h1;
    AddUndo(s.h2, t);
    AddUndo(s.h3, t);
    AddUndo(s.h4, t);
    AddUndo(Add(Add(s.h1, s.h2), s.h3), s.h4);
    AddUndo(Add(s.h1, s.h2), s.h3);
    AddUndo(s.h1, s.h2);
  }

  function FmixAll(s: Quad): Quad {
    Quad(Fmix(s.h1), Fmix(s.h2), Fmix(s.h3), Fmix(s.h4))
  }

  function UnfmixAll(s: Quad): Quad {
    Quad(Unfmix(s.h1), Unfmix(s.h2), Unfmix(s.h3), Unfmix(s.h4))
  }

  lemma FmixAllInvertible(s: Quad)
    ensures UnfmixAll(FmixAll(s)) == s
  {
    hide Fmix, Unfmix;
    FmixBijective(s.h1);
    FmixBijective(s.h2);
    FmixBijective(s.h3);
    FmixBijective(s.h4);
  }

  function Finish(s: Quad, l: bv32): Quad {
    Spread(FmixAll(Spread(Stamp(s, l))))
  }

  lemma FinishInjective(s: Quad, s': Quad, l: bv32)
    requires Finish(s, l) == Finish(s', l)
    ensures s == s'
  {
    hide Spread, Unspread, FmixAll, UnfmixAll, Stamp;
    SpreadInvertible(FmixAll(Spread(Stamp(s, l))));
    SpreadInvertible(FmixAll(Spread(Stamp(s', l))));
    FmixAllInvertible(Spread(Stamp(s, l)));
    FmixAllInvertible(Spread(Stamp(s', l)));
    SpreadInvertible(Stamp(s, l));
    SpreadInvertible(Stamp(s', l));
    StampInvertible(s, l);
    StampInvertible(s', l);
  }

  // ----- the whole hash as a fold over 16-byte blocks -----

  /** Block `i` of the key continued by zeros. */
  function Block(key: seq<byte>, i: nat): Quad {
    Quad(Word(key, 16 * i), Word(key, 16 * i + 4), Word(key, 16 * i + 8), Word(key, 16 * i + 12))
  }

  function Body(key: seq<byte>, n: nat, seed: bv32): Quad {
    if n == 0 then Quad(seed, seed, seed, seed) else Round(Body(key, n - 1, seed), Block(key, n - 1))
  }

  /** Murmur3C by one rule for every key length. */
  function Hash(key: seq<byte>, seed: bv32): Quad {
    var n := |key| / 16;
    Finish(Absorb(Body(key, n, seed), Block(key, n)), LengthWord(|key|))
  }

  lemma BlocksAgree(a: seq<byte>, b: seq<byte>, j: nat, i: nat)
    requires DifferOnlyIn(a, b, 16 * j, 16 * j + 16) && i != j
    ensures Block(a, i) == Block(b, i)
  {
    hide Word, DifferOnlyIn;
    WordsAgree(a, b, 16 * j, 16 * j + 16, 16 * i);
    WordsAgree(a, b, 16 * j, 16 * j + 16, 16 * i + 4);
    WordsAgree(a, b, 16 * j, 16 * j + 16, 16 * i + 8);
    WordsAgree(a, b, 16 * j, 16 * j + 16, 16 * i + 12);
  }

  lemma BlocksDiffer(a: seq<byte>, b: seq<byte>, j: nat)
    requires DifferOnlyIn(a, b, 16 * j, 16 * j + 16)
    ensures Block(a, j) != Block(b, j)
  {
    hide Word, DifferOnlyIn;
    var i := DifferSomewhere(a, b, 16 * j, 16 * j + 16);
    var o := if i < 16 * j + 4 then 0 else if i < 16 * j + 8 then 4 else if i < 16 * j + 12 then 8 else 12;
    if Word(a, 16 * j + o) == Word(b, 16 * j + o) {
      WordInjective(a, b, 16 * j + o, i);
    }
  }

  lemma {:induction false} BodyAgrees(a: seq<byte>, b: seq<byte>, j: nat, n: nat, seed: bv32)
    requires DifferOnlyIn(a, b, 16 * j, 16 * j + 16) && n <= j
    ensures Body(a, n, seed) == Body(b, n, seed)
  {
    hide Round, Block, DifferOnlyIn;
    if n == 0 {
    } else {
      BodyAgrees(a, b, j, n - 1, seed);
      BlocksAgree(a, b, j, n - 1);
    }
  }

  lemma {:induction false} BodyDiffers(a: seq<byte>, b: seq<byte>, j: nat, n: nat, seed: bv32)
    requires DifferOnlyIn(a, b, 16 * j, 16 * j + 16) && j < n
    ensures Body(a, n, seed) != Body(b, n, seed)
  {
    hide Round, Unround, Block, DifferOnlyIn;
    var s, t := Body(a, n - 1, seed), Body(b, n - 1, seed);
    if j == n - 1 {
      BodyAgrees(a, b, j, n - 1, seed);
      BlocksDiffer(a, b, j);
      if Round(s, Block(a, j)) == Round(s, Block(b, j)) {
        RoundTellsBlocks(s, Block(a, j), Block(b, j));
      }
    } else {
      BodyDiffers(a, b, j, n - 1, seed);
      BlocksAgree(a, b, j, n - 1);
      RoundInvertible(s, Block(a, n - 1));
      RoundInvertible(t, Block(a, n - 1));
    }
  }

  /** Two keys of one length that differ only within one aligned block of 16 bytes, be it a full
      block or the rest at the end, never have the same four-word hash, whatever the seed. */
  lemma NoCollision(a: seq<byte>, b: seq<byte>, j: nat, seed: bv32)
    requires DifferOnlyIn(a, b, 16 * j, 16 * j + 16)
    ensures Hash(a, seed) != Hash(b, seed)
  {
    hide Finish, Absorb, Body, Block, LengthWord;
    var n := |a| / 16;
    var s, t := Body(a, n, seed), Body(b, n, seed);
    if j < n {
      BodyDiffers(a, b, j, n, seed);
      BlocksAgree(a, b, j, n);
    } else {
      var i := DifferSomewhere(a, b, 16 * j, 16 * j + 16);
      assert j == n;
      BodyAgrees(a, b, j, n, seed);
      BlocksDiffer(a, b, j);
    }
    if Hash(a, seed) == Hash(b, seed) {
      FinishInjective(Absorb(s, Block(a, n)), Absorb(t, Block(b, n)), LengthWord(|a|));
      AbsorbInjective(s, Block(a, n), t, Block(b, n));
    }
  }

  lemma {:induction false} BodyTellsSeeds(key: seq<byte>, n: nat, x: bv32, y: bv32)
    requires Body(key, n, x) == Body(key, n, y)
    ensures x == y
  {
    hide Round, Unround, Block;
    if n == 0 {
    } else {
      RoundInvertible(Body(key, n - 1, x), Block(key, n - 1));
      RoundInvertible(Body(key, n - 1, y), Block(key, n - 1));
      BodyTellsSeeds(key, n - 1, x, y);
    }
  }

  /** For each key, different seeds give different four-word hashes. */
  lemma SeedsTell(key: seq<byte>, x: bv32, y: bv32)
    requires Hash(key, x) == Hash(key, y)
    ensures x == y
  {
    hide Finish, Absorb, Body, Block, LengthWord;
    var n := |key| / 16;
    FinishInjective(Absorb(Body(key, n, x), Block(key, n)), Absorb(Body(key, n, y), Block(key, n)), LengthWord(|key|));
    AbsorbInjective(Body(key, n, x), Block(key, n), Body(key, n, y), Block(key, n));
    BodyTellsSeeds(key, n, x, y);
  }

  // ----- the function of the source -----

  lemma ReadBlock(key: seq<byte>, i: nat)
    requires 16 * i + 16 <= |key|
    ensures Block(key, i) ==
      Quad(ReadWord(key[16 * i..]), ReadWord(key[16 * i + 4..]),
           ReadWord(key[16 * i + 8..]), ReadWord(key[16 * i + 12..]))
  {
    hide Word, ReadWord;
    ReadWordIsWord(key, 16 * i);
    ReadWordIsWord(key, 16 * i + 4);
    ReadWordIsWord(key, 16 * i + 8);
    ReadWordIsWord(key, 16 * i + 12);
  }

  lemma RestBlock(key: seq<byte>, n: nat)
    requires 16 * n <= |key|
    ensures var tail := key[16 * n..];
      Block(key, n) == Quad(Word(tail, 0), Word(tail, 4), Word(tail, 8), Word(tail, 12))
  {
    hide Word;
    WordOfRest(key, 16 * n, 0);
    WordOfRest(key, 16 * n, 4);
    WordOfRest(key, 16 * n, 8);
    WordOfRest(key, 16 * n, 12);
  }

  /** A lane that the switch does not reach would have absorbed a zero word. */
  lemma NothingAbsorbed(i: Lane, h: bv32, tail: seq<byte>, off: nat)
    requires |tail| <= off
    ensures Xor(h, Mix(i, Word(tail, off))) == h
  {
    hide Mix, Word;
    WordPastEnd(tail, off);
    MixZero(i);
    XorZero(h);
  }

  /** The tail switch: lane by lane from the fourth down, as far as there are bytes. */
  method AbsorbTail(s: Quad, tail: seq<byte>) returns (t: Quad)
    ensures t == Absorb(s, Quad(Word(tail, 0), Word(tail, 4), Word(tail, 8), Word(tail, 12)))
  {
    hide Mix, Xor, Word;
    var Quad(h1, h2, h3, h4) := s;
    NothingAbsorbedIfShort(s, tail);
    if |tail| > 12 {
      var k4 := Gather(tail, 12);
      h4 := Xor(h4, Mix(L4, k4));
    }
    if |tail| > 8 {
      var k3 := Gather(tail, 8);
      h3 := Xor(h3, Mix(L3, k3));
    }
    if |tail| > 4 {
      var k2 := Gather(tail, 4);
      h2 := Xor(h2, Mix(L2, k2));
    }
    if |tail| > 0 {
      var k1 := Gather(tail, 0);
      h1 := Xor(h1, Mix(L1, k1));
    }
    t := Quad(h1, h2, h3, h4);
  }

  lemma NothingAbsorbedIfShort(s: Quad, tail: seq<byte>)
    ensures |tail| <= 12 ==> Xor(s.h4, Mix(L4, Word(tail, 12))) == s.h4
    ensures |tail| <= 8 ==> Xor(s.h3, Mix(L3, Word(tail, 8))) == s.h3
    ensures |tail| <= 4 ==> Xor(s.h2, Mix(L2, Word(tail, 4))) == s.h2
    ensures |tail| <= 0 ==> Xor(s.h1, Mix(L1, Word(tail, 0))) == s.h1
  {
    hide Mix, Xor, Word;
    if |tail| <= 12 { NothingAbsorbed(L4, s.h4, tail, 12); }
    if |tail| <= 8 { NothingAbsorbed(L3, s.h3, tail, 8); }
    if |tail| <= 4 { NothingAbsorbed(L2, s.h2, tail, 4); }
    if |tail| <= 0 { NothingAbsorbed(L1, s.h1, tail, 0); }
  }

  method Murmur3C(key: seq<byte>, seed: bv32) returns (h1: bv32, h2: bv32, h3: bv32, h4: bv32)
    ensures Quad(h1, h2, h3, h4) == Hash(key, seed)
  {
    hide Mul, TurnWord, TurnState, Xor, Add, Affine, Word, ReadWord, Block, Fmix, Absorb, Unfmix;
    var nblocks := |key| / 16;
    h1, h2, h3, h4 := seed, seed, seed, seed;
    for i := 0 to nblocks
      invariant Quad(h1, h2, h3, h4) == Body(key, i, seed)
    {
      var k1 := ReadWord(key[(i * 4 + 0) * 4..]);
      var k2 := ReadWord(key[(i * 4 + 1) * 4..]);
      var k3 := ReadWord(key[(i * 4 + 2) * 4..]);
      var k4 := ReadWord(key[(i * 4 + 3) * 4..]);
      ReadBlock(key, i);

      k1 := Mul(L1, k1);
      k1 := TurnWord(L1, k1);
      k1 := Mul(L2, k1);
      h1 := Xor(h1, k1);

      h1 := TurnState(L1, h1);
      h1 := Add(h1, h2);
      h1 := Affine(L1, h1);

      k2 := Mul(L2, k2);
      k2 := TurnWord(L2, k2);
      k2 := Mul(L3, k2);
      h2 := Xor(h2, k2);

      h2 := TurnState(L2, h2);
      h2 := Add(h2, h3);
      h2 := Affine(L2, h2);

      k3 := Mul(L3, k3);
      k3 := TurnWord(L3, k3);
      k3 := Mul(L4, k3);
      h3 := Xor(h3, k3);

      h3 := TurnState(L3, h3);
      h3 := Add(h3, h4);
      h3 := Affine(L3, h3);

      k4 := Mul(L4, k4);
      k4 := TurnWord(L4, k4);
      k4 := Mul(L1, k4);
      h4 := Xor(h4, k4);

      h4 := TurnState(L4, h4);
      h4 := Add(h4, h1);
      h4 := Affine(L4, h4);
    }
    RestBlock(key, nblocks);
    var t := AbsorbTail(Quad(h1, h2, h3, h4), key[nblocks * 16..]);
    h1, h2, h3, h4 := t.h1, t.h2, t.h3, t.h4;

    var l := LengthWord(|key|);
    h1 := Xor(h1, l);
    h2 := Xor(h2, l);
    h3 := Xor(h3, l);
    h4 := Xor(h4, l);

    h1 := Add(h1, h2);
    h1 := Add(h1, h3);
    h1 := Add(h1, h4);
    h2 := Add(h2, h1);
    h3 := Add(h3, h1);
    h4 := Add(h4, h1);

    h1 := Fmix32(h1);
    h2 := Fmix32(h2);
    h3 := Fmix32(h3);
    h4 := Fmix32(h4);

    h1 := Add(h1, h2);
    h1 := Add(h1, h3);
    h1 := Add(h1, h4);
    h2 := Add(h2, h1);
    h3 := Add(h3, h1);
    h4 := Add(h4, h1);
  }

  lemma TestSteps()
    ensures Mix(L1, 0x74736574) == 0xfd533ccc && Mix(L2, 0) == 0 && Mix(L3, 0) == 0 && Mix(L4, 0) == 0
    ensures Fmix(0xfd533cd4) == 0xbce64488 && Fmix(0xfd533cd8) == 0xe6098e38
  {
  }

  lemma TestBlock()
    ensures Block([0x74, 0x65, 0x73, 0x74], 0) == Quad(0x74736574, 0, 0, 0)
  {
  }

  /** The value hash/mmhash3_test.go expects for "test". */
  lemma TestVector()
    ensures Hash([0x74, 0x65, 0x73, 0x74], 0) == Quad(1862463280, 1426881896, 1426881896, 1426881896)
  {
    hide Mix, Fmix, Block, LengthWord;
    TestBlock();
    LengthOfFour();
    TestSteps();
    assert Body([0x74, 0x65, 0x73, 0x74], 0, 0) == Quad(0, 0, 0, 0);
  }
}
