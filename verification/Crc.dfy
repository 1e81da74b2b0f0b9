/** The checksum in the run-time header: a table-driven CRC-32 that equals the bit-at-a-time one of section 8 of RFC
  * 1952. */
module Crc {
  const POLY: bv32 := 0xEDB88320

  // --- operations on words, named so that proofs can go by their laws

  function Mix(a: bv32, b: bv32): bv32 { a ^ b }

  function Half(a: bv32): bv32 { a >> 1 }

  predicate Odd(a: bv32) { a & 1 == 1 }

  function Wide(b: bv8): bv32 { b as bv32 }

  function LowByte(a: bv32): bv32 { a & 0xFF }

  function HighBytes(a: bv32): bv32 { a & 0xFFFFFF00 }

  function Down(a: bv32): bv32 { (a >> 8) & 0x00FFFFFF }

  function Up(a: bv32): bv32 { a << 8 }

  lemma XorAssoc(a: bv32, b: bv32, c: bv32)
    ensures (a ^ b) ^ c == a ^ (b ^ c)
  {
  }

  lemma XorBack(a: bv32, b: bv32)
    ensures a ^ b == b ^ a && (a ^ b) ^ b == a && a ^ (a ^ b) == b && a ^ 0 == a
  {
  }

  lemma MixAssoc(a: bv32, b: bv32, c: bv32)
    ensures Mix(Mix(a, b), c) == Mix(a, Mix(b, c))
  {
    calc {
      Mix(Mix(a, b), c);
      (a ^ b) ^ c;
      { XorAssoc(a, b, c); }
      a ^ (b ^ c);
      Mix(a, b ^ c);
      Mix(a, Mix(b, c));
    }
  }

  lemma MixBack(a: bv32, b: bv32)
    ensures Mix(a, b) == Mix(b, a) && Mix(Mix(a, b), b) == a && Mix(a, Mix(a, b)) == b && Mix(a, 0) == a
  {
    XorBack(a, b);
    assert Mix(a, b) == a ^ b;
  }

  lemma MixLaws(a: bv32, b: bv32, c: bv32)
    ensures Mix(a, b) == Mix(b, a) && Mix(Mix(a, b), c) == Mix(a, Mix(b, c))
    ensures Mix(Mix(a, b), b) == a && Mix(a, Mix(a, b)) == b && Mix(a, 0) == a
  {
    hide Mix;
    MixAssoc(a, b, c);
    MixBack(a, b);
  }

  lemma HalfMix(a: bv32, b: bv32)
    ensures Half(Mix(a, b)) == Mix(Half(a), Half(b)) && (Odd(Mix(a, b)) <==> Odd(a) != Odd(b))
  {
  }

  lemma MovePoly(x: bv32, y: bv32)
    ensures Mix(Mix(x, POLY), Mix(y, POLY)) == Mix(x, y)
    ensures Mix(Mix(x, POLY), y) == Mix(Mix(x, y), POLY) && Mix(x, Mix(y, POLY)) == Mix(Mix(x, y), POLY)
  {
    hide Mix;
    MixLaws(x, POLY, y);
    MixLaws(POLY, y, 0);
    MixLaws(y, POLY, POLY);
    MixLaws(x, y, POLY);
    MixLaws(x, POLY, Mix(y, POLY));
    MixLaws(POLY, Mix(y, POLY), 0);
  }

  /** One bit of the reflected division. */
  function Shift(c: bv32): bv32 {
    if Odd(c) then Mix(Half(c), POLY) else Half(c)
  }

  function Shifts(c: bv32, k: nat): bv32
    decreases k
  {
    if k == 0 then c else Shifts(Shift(c), k - 1)
  }

  /** The definition: take in the lowest bit of `b`. */
  function TakeBit(c: bv32, b: bv32): bv32 {
    if Odd(c) != Odd(b) then Mix(Half(c), POLY) else Half(c)
  }

  /** Take in the low `k` bits of a byte, least significant first. */
  function TakeBits(c: bv32, b: bv32, k: nat): bv32
    decreases k
  {
    if k == 0 then c else TakeBits(TakeBit(c, b), Half(b), k - 1)
  }

  function TakeByte(c: bv32, b: bv8): bv32 {
    TakeBits(c, Wide(b), 8)
  }

  function TakeAll(c: bv32, data: seq<bv8>): bv32
    decreases data
  {
    if data == [] then c else TakeAll(TakeByte(c, data[0]), data[1..])
  }

  // --- bit by bit, and all at once

  lemma ShiftMix(a: bv32, b: bv32)
    ensures Shift(Mix(a, b)) == Mix(Shift(a), Shift(b))
  {
    hide Mix, Half, Odd;
    HalfMix(a, b);
    MovePoly(Half(a), Half(b));
  }

  lemma {:induction false} ShiftsMix(a: bv32, b: bv32, k: nat)
    ensures Shifts(Mix(a, b), k) == Mix(Shifts(a, k), Shifts(b, k))
    decreases k
  {
    hide Shift, Mix;
    if k > 0 {
      ShiftMix(a, b);
      ShiftsMix(Shift(a), Shift(b), k - 1);
    }
  }

  lemma TakeBitIsShift(c: bv32, b: bv32)
    ensures Mix(TakeBit(c, b), Half(b)) == Shift(Mix(c, b))
  {
    hide Mix, Half, Odd;
    HalfMix(c, b);
    MovePoly(Half(c), Half(b));
  }

  function Halves(b: bv32, k: nat): bv32
    decreases k
  {
    if k == 0 then b else Halves(Half(b), k - 1)
  }

  /** Taking in bits one by one is mixing them all in and shifting. */
  lemma {:induction false} TakeBitsIsShifts(c: bv32, b: bv32, k: nat)
    ensures Mix(TakeBits(c, b, k), Halves(b, k)) == Shifts(Mix(c, b), k)
    decreases k
  {
    hide Mix, Half, TakeBit, Shift;
    if k > 0 {
      TakeBitIsShift(c, b);
      TakeBitsIsShifts(TakeBit(c, b), Half(b), k - 1);
    }
  }

  lemma ByteEnds(b: bv8)
    ensures Halves(Wide(b), 8) == 0
  {
    EightHalves(Wide(b));
    NothingLeft(b);
  }

  lemma EightHalves(x: bv32)
    ensures Halves(x, 8) == Half(Half(Half(Half(Half(Half(Half(Half(x))))))))
  {
    hide Half;
    var a := Half(Half(Half(Half(x))));
    assert Halves(x, 8) == Halves(Half(x), 7) == Halves(Half(Half(x)), 6) == Halves(Half(Half(Half(x))), 5) ==
        Halves(a, 4);
    assert Halves(a, 4) == Halves(Half(a), 3) == Halves(Half(Half(a)), 2) == Halves(Half(Half(Half(a))), 1);
  }

  lemma NothingLeft(b: bv8)
    ensures Half(Half(Half(Half(Half(Half(Half(Half(Wide(b))))))))) == 0
  {
  }

  lemma ByteIsShifts(c: bv32, b: bv8)
    ensures TakeByte(c, b) == Shifts(Mix(c, Wide(b)), 8)
  {
    hide TakeBits, Shifts, Mix, Wide, Halves;
    TakeBitsIsShifts(c, Wide(b), 8);
    ByteEnds(b);
    MixLaws(TakeByte(c, b), 0, 0);
  }

  // --- the table

  /** The lowest `k` bits are zero. */
  predicate Zeros(x: bv32, k: nat) {
    match k
    case 0 => true
    case 1 => x & 0x01 == 0
    case 2 => x & 0x03 == 0
    case 3 => x & 0x07 == 0
    case 4 => x & 0x0F == 0
    case 5 => x & 0x1F == 0
    case 6 => x & 0x3F == 0
    case 7 => x & 0x7F == 0
    case _ => x & 0xFF == 0
  }

  lemma ZerosHalf(x: bv32, k: nat)
    requires 0 < k <= 8 && Zeros(x, k)
    ensures !Odd(x) && Zeros(Half(x), k - 1)
  {
    HalfMasks(x);
  }

  lemma HalfMasks(x: bv32)
    ensures x & 0x01 == 0 ==> !(x & 1 == 1)
    ensures x & 0x03 == 0 ==> !(x & 1 == 1) && (x >> 1) & 0x01 == 0
    ensures x & 0x07 == 0 ==> !(x & 1 == 1) && (x >> 1) & 0x03 == 0
    ensures x & 0x0F == 0 ==> !(x & 1 == 1) && (x >> 1) & 0x07 == 0
    ensures x & 0x1F == 0 ==> !(x & 1 == 1) && (x >> 1) & 0x0F == 0
    ensures x & 0x3F == 0 ==> !(x & 1 == 1) && (x >> 1) & 0x1F == 0
    ensures x & 0x7F == 0 ==> !(x & 1 == 1) && (x >> 1) & 0x3F == 0
    ensures x & 0xFF == 0 ==> !(x & 1 == 1) && (x >> 1) & 0x7F == 0
  {
  }

  lemma {:induction false} ShiftsZeros(x: bv32, k: nat)
    requires k <= 8 && Zeros(x, k)
    ensures Shifts(x, k) == Halves(x, k)
    decreases k
  {
    hide Half, Odd, Mix, Zeros;
    if k > 0 {
      ZerosHalf(x, k);
      ShiftsZeros(Half(x), k - 1);
    }
  }

  lemma HalvesDown(x: bv32)
    ensures Half(Half(Half(Half(Half(Half(Half(Half(x)))))))) == Down(x)
  {
    MovedDown(x);
  }

  lemma MovedDown(x: bv32)
    ensures ((((((((x >> 1) >> 1) >> 1) >> 1) >> 1) >> 1) >> 1) >> 1) == (x >> 8) & 0x00FFFFFF
  {
  }

  /** Eight shifts of a word whose low byte is zero just move it down. */
  lemma HighPart(h: bv32)
    requires Zeros(h, 8)
    ensures Shifts(h, 8) == Down(h)
  {
    hide Shifts, Halves, Half, Down, Zeros;
    ShiftsZeros(h, 8);
    EightHalves(h);
    HalvesDown(h);
  }

  lemma NoShift(c: bv32)
    ensures Shifts(c, 0) == c
  {
  }

  lemma SplitContext(c: bv32, b: bv8)
    ensures var x := Mix(c, Wide(b));
            x == Mix(LowByte(x), HighBytes(x)) && Zeros(HighBytes(x), 8) && Down(HighBytes(x)) == Down(c)
  {
  }

  /** One table look-up does the work of eight bits. */
  lemma TableStep(c: bv32, b: bv8)
    ensures Mix(Down(c), Shifts(LowByte(Mix(c, Wide(b))), 8)) == TakeByte(c, b)
  {
    var x := Mix(c, Wide(b));
    SplitContext(c, b);
    HighPart(HighBytes(x));
    hide Shifts, TakeByte, Mix, Wide, LowByte, HighBytes, Down, Zeros;
    ShiftsMix(LowByte(x), HighBytes(x), 8);
    ByteIsShifts(c, b);
    MixLaws(Shifts(LowByte(x), 8), Down(c), 0);
  }

  // --- nothing is lost

  predicate Top(d: bv32) { d & 0x80000000 != 0 }

  function Unshift(d: bv32): bv32 {
    if Top(d) then ((d ^ POLY) << 1) | 1 else d << 1
  }

  function Unshifts(d: bv32, k: nat): bv32
    decreases k
  {
    if k == 0 then d else Unshift(Unshifts(d, k - 1))
  }

  lemma OddBack(c: bv32)
    requires Odd(c)
    ensures Top((c >> 1) ^ 0xEDB88320) && ((((c >> 1) ^ 0xEDB88320) ^ 0xEDB88320) << 1) | 1 == c
  {
  }

  lemma EvenBack(c: bv32)
    requires !Odd(c)
    ensures !Top(c >> 1) && (c >> 1) << 1 == c
  {
  }

  lemma TopSet(d: bv32)
    requires Top(d)
    ensures Odd(((d ^ 0xEDB88320) << 1) | 1) && ((((d ^ 0xEDB88320) << 1) | 1) >> 1) ^ 0xEDB88320 == d
  {
  }

  lemma TopClear(d: bv32)
    requires !Top(d)
    ensures !Odd(d << 1) && (d << 1) >> 1 == d
  {
  }

  lemma UnshiftShift(c: bv32)
    ensures Unshift(Shift(c)) == c
  {
    if Odd(c) { OddBack(c); } else { EvenBack(c); }
  }

  lemma ShiftUnshift(d: bv32)
    ensures Shift(Unshift(d)) == d
  {
    if Top(d) { TopSet(d); } else { TopClear(d); }
  }

  lemma {:induction false} ShiftsLast(c: bv32, k: nat)
    ensures Shifts(c, k + 1) == Shift(Shifts(c, k))
    decreases k
  {
    hide Shift;
    if k > 0 { ShiftsLast(Shift(c), k - 1); }
  }

  lemma {:induction false} UnshiftsFirst(d: bv32, k: nat)
    ensures Unshifts(d, k + 1) == Unshifts(Unshift(d), k)
    decreases k
  {
    hide Unshift;
    if k > 0 { UnshiftsFirst(d, k - 1); }
  }

  lemma {:induction false} ShiftsUnshifts(c: bv32, k: nat)
    ensures Unshifts(Shifts(c, k), k) == c && Shifts(Unshifts(c, k), k) == c
    decreases k
  {
    hide Shift, Unshift;
    if k > 0 {
      UnshiftsFirst(Shifts(c, k), k - 1);
      ShiftsLast(c, k - 1);
      UnshiftShift(Shifts(c, k - 1));
      ShiftsUnshifts(c, k - 1);
      ShiftUnshift(Unshifts(c, k - 1));
    }
  }

  /** The context before a byte, from the one after it. */
  function GiveBack(d: bv32, b: bv8): bv32 {
    Mix(Unshifts(d, 8), Wide(b))
  }

  /** Each byte permutes the contexts. */
  lemma ByteBijective(c: bv32, b: bv8)
    ensures GiveBack(TakeByte(c, b), b) == c && TakeByte(GiveBack(c, b), b) == c
  {
    hide Shifts, Unshifts, TakeByte, Mix, Wide;
    ByteIsShifts(c, b);
    ByteIsShifts(GiveBack(c, b), b);
    ShiftsUnshifts(Mix(c, Wide(b)), 8);
    ShiftsUnshifts(c, 8);
    MixLaws(c, Wide(b), 0);
    MixLaws(Unshifts(c, 8), Wide(b), 0);
  }

  lemma {:induction false} SuffixKeepsApart(c: bv32, d: bv32, data: seq<bv8>)
    requires c != d
    ensures TakeAll(c, data) != TakeAll(d, data)
    decreases data
  {
    hide TakeByte, GiveBack;
    if data != [] {
      ByteBijective(c, data[0]);
      ByteBijective(d, data[0]);
      SuffixKeepsApart(TakeByte(c, data[0]), TakeByte(d, data[0]), data[1..]);
    }
  }

  lemma {:induction false} TakeMore(c: bv32, a: seq<bv8>, b: seq<bv8>)
    ensures TakeAll(c, a + b) == TakeAll(TakeAll(c, a), b)
    decreases a
  {
    hide TakeByte;
    if a == [] {
      assert a + b == b;
    } else {
      assert (a + b)[0] == a[0] && (a + b)[1..] == a[1..] + b;
      TakeMore(TakeByte(c, a[0]), a[1..], b);
    }
  }

  // --- what is detected

  /** Up to four bytes as one little-endian word. */
  function Word(w: seq<bv8>): bv32
    requires |w| <= 4
  {
    if w == [] then 0 else Mix(Up(Word(w[1..])), Wide(w[0]))
  }

  lemma {:induction false} ShiftsTwice(c: bv32, j: nat, k: nat)
    ensures Shifts(Shifts(c, j), k) == Shifts(c, j + k)
    decreases j
  {
    hide Shift;
    if j > 0 { ShiftsTwice(Shift(c), j - 1, k); }
  }

  lemma GrownWord(a: bv32, b: bv8)
    ensures a == 0 ==> ((a << 8) ^ (b as bv32)) & 0xFFFFFF00 == 0
    ensures a & 0xFFFFFF00 == 0 ==> ((a << 8) ^ (b as bv32)) & 0xFFFF0000 == 0
    ensures a & 0xFFFF0000 == 0 ==> ((a << 8) ^ (b as bv32)) & 0xFF000000 == 0
  {
  }

  lemma WordParts(a: bv32, b: bv8)
    ensures Mix(Up(a), Wide(b)) == (a << 8) ^ (b as bv32)
  {
    assert Up(a) == a << 8;
    assert Wide(b) == b as bv32;
  }

  lemma {:induction false} WordFits(w: seq<bv8>)
    requires |w| <= 3
    ensures |w| == 0 ==> Word(w) == 0
    ensures |w| == 1 ==> Word(w) & 0xFFFFFF00 == 0
    ensures |w| == 2 ==> Word(w) & 0xFFFF0000 == 0
    ensures |w| == 3 ==> Word(w) & 0xFF000000 == 0
    decreases w
  {
    hide Mix, Up, Wide;
    if w != [] {
      WordFits(w[1..]);
      WordParts(Word(w[1..]), w[0]);
      GrownWord(Word(w[1..]), w[0]);
    }
  }

  lemma SmallerMasks(a: bv32)
    ensures a == 0 ==> a & 0xFF000000 == 0
    ensures a & 0xFFFFFF00 == 0 ==> a & 0xFF000000 == 0
    ensures a & 0xFFFF0000 == 0 ==> a & 0xFF000000 == 0
  {
  }

  lemma TailFits(w: seq<bv8>)
    requires 0 < |w| <= 4
    ensures Word(w[1..]) & 0xFF000000 == 0
  {
    hide Word;
    WordFits(w[1..]);
    SmallerMasks(Word(w[1..]));
  }

  lemma MovedWord(a: bv32)
    requires a & 0xFF000000 == 0
    ensures (a << 8) & 0xFF == 0 && ((a << 8) >> 8) & 0x00FFFFFF == a
  {
  }

  lemma UpZeros(a: bv32)
    requires a & 0xFF000000 == 0
    ensures Zeros(Up(a), 8)
  {
    hide Down;
    MovedWord(a);
    assert Up(a) == a << 8;
  }

  lemma DownUp(a: bv32)
    requires a & 0xFF000000 == 0
    ensures Down(Up(a)) == a
  {
    hide Zeros;
    MovedWord(a);
    assert Up(a) == a << 8;
    assert Down(a << 8) == ((a << 8) >> 8) & 0x00FFFFFF;
  }

  lemma ByteThenWord(c: bv32, b: bv8, rest: bv32)
    requires rest & 0xFF000000 == 0
    ensures Mix(TakeByte(c, b), rest) == Shifts(Mix(c, Mix(Up(rest), Wide(b))), 8)
  {
    UpZeros(rest);
    DownUp(rest);
    HighPart(Up(rest));
    hide Shifts, TakeByte, Mix, Wide, Up, Down;
    ByteIsShifts(c, b);
    ShiftsMix(Mix(c, Wide(b)), Up(rest), 8);
    MixLaws(c, Wide(b), Up(rest));
    MixLaws(Up(rest), Wide(b), 0);
  }

  /** Bytes one at a time, or at once: mix in the whole word, then shift by its length. */
  lemma {:induction false} WindowIsShifts(c: bv32, w: seq<bv8>)
    requires |w| <= 4
    ensures TakeAll(c, w) == Shifts(Mix(c, Word(w)), 8 * |w|)
    decreases w
  {
    hide Shifts, TakeByte, Mix, Wide, Up;
    if w == [] {
      MixLaws(c, 0, 0);
      NoShift(c);
    } else {
      TailFits(w);
      WindowIsShifts(TakeByte(c, w[0]), w[1..]);
      ByteThenWord(c, w[0], Word(w[1..]));
      ShiftsTwice(Mix(c, Word(w)), 8, 8 * |w[1..]|);
      assert 8 * |w| == 8 + 8 * |w[1..]|;
    }
  }

  lemma JoinedWord(a: bv32, b: bv8)
    requires a & 0xFF000000 == 0
    ensures (((a << 8) ^ (b as bv32)) >> 8) & 0x00FFFFFF == a && ((a << 8) ^ (b as bv32)) & 0xFF == b as bv32
  {
  }

  lemma SplitWord(a: bv32, b: bv8)
    requires a & 0xFF000000 == 0
    ensures Down(Mix(Up(a), Wide(b))) == a && LowByte(Mix(Up(a), Wide(b))) == Wide(b)
  {
    hide Mix, Up;
    WordParts(a, b);
    JoinedWord(a, b);
    assert Down((a << 8) ^ (b as bv32)) == (((a << 8) ^ (b as bv32)) >> 8) & 0x00FFFFFF;
    assert LowByte((a << 8) ^ (b as bv32)) == ((a << 8) ^ (b as bv32)) & 0xFF;
  }

  lemma SameByte(b: bv8, d: bv8)
    requires Wide(b) == Wide(d)
    ensures b == d
  {
  }

  lemma {:induction false} WordInjective(w: seq<bv8>, x: seq<bv8>)
    requires |w| == |x| <= 4 && Word(w) == Word(x)
    ensures w == x
    decreases w
  {
    hide Mix, Up, Wide, Down, LowByte;
    if w != [] {
      TailFits(w);
      TailFits(x);
      SplitWord(Word(w[1..]), w[0]);
      SplitWord(Word(x[1..]), x[0]);
      SameByte(w[0], x[0]);
      WordInjective(w[1..], x[1..]);
      assert w == [w[0]] + w[1..] && x == [x[0]] + x[1..];
    }
  }

  lemma WindowInjective(c: bv32, w: seq<bv8>, x: seq<bv8>)
    requires |w| == |x| <= 4 && TakeAll(c, w) == TakeAll(c, x)
    ensures w == x
  {
    hide Shifts, Unshifts, TakeAll, Word, Mix;
    WindowIsShifts(c, w);
    WindowIsShifts(c, x);
    ShiftsUnshifts(Mix(c, Word(w)), 8 * |w|);
    ShiftsUnshifts(Mix(c, Word(x)), 8 * |w|);
    MixLaws(c, Word(w), 0);
    MixLaws(c, Word(x), 0);
    WordInjective(w, x);
  }

  /** What is printed: the complement of the context. */
  function Checksum(c: bv32): bv32 {
    Mix(c, 0xFFFFFFFF)
  }

  /** Streams of one length that differ only within four bytes never have the same checksum. */
  lemma WindowDetected(c: bv32, before: seq<bv8>, w: seq<bv8>, x: seq<bv8>, after: seq<bv8>)
    requires |w| == |x| <= 4 && w != x
    ensures Checksum(TakeAll(c, before + w + after)) != Checksum(TakeAll(c, before + x + after))
  {
    hide TakeAll, Mix;
    var d := TakeAll(c, before);
    TakeMore(c, before + w, after);
    TakeMore(c, before + x, after);
    TakeMore(c, before, w);
    TakeMore(c, before, x);
    if TakeAll(d, w) == TakeAll(d, x) {
      WindowInjective(d, w, x);
    }
    SuffixKeepsApart(TakeAll(d, w), TakeAll(d, x), after);
    MixLaws(TakeAll(c, before + w + after), 0xFFFFFFFF, 0);
    MixLaws(TakeAll(c, before + x + after), 0xFFFFFFFF, 0);
  }

  // --- the code

  class Crc32 {
    const table: array<bv32>
    var context: bv32

    ghost predicate Valid()
      reads this, table
    {
      table.Length == 256 && forall i :: 0 <= i < 256 ==> table[i] == Shifts(Number(i), 8)
    }

    /** Build the table. */
    constructor ()
      ensures Valid() && fresh(table) && context == 0xFFFFFFFF
    {
      table := new bv32[256](_ => 0);
      context := 0xFFFFFFFF;
      new;
      hide Shift, Shifts, Number;
      for i := 0 to 256
        invariant table.Length == 256 && fresh(table) && context == 0xFFFFFFFF
        invariant forall k :: 0 <= k < i ==> table[k] == Shifts(Number(k), 8)
      {
        var crc := TableEntry(i);
        table[i] := crc;
      }
    }

    method Byte(b: bv8)
      requires Valid()
      modifies this
      ensures Valid() && context == TakeByte(old(context), b)
    {
      hide Shifts, TakeByte, Mix, Wide, LowByte, Down;
      TableStep(context, b);
      LowIsSmall(Mix(context, Wide(b)));
      var i := Index(LowByte(Mix(context, Wide(b))));
      context := Mix(Down(context), table[i]);
    }

    method EightBytes(val: bv64)
      requires Valid()
      modifies this
      ensures Valid() && context == TakeAll(old(context), BytesOf(val))
      ensures |BytesOf(val)| == 8 && Long(BytesOf(val)) == val
    {
      hide TakeByte;
      BytesMakeWord(val);
      ghost var c, bytes := context, BytesOf(val);
      Byte(ByteAt(val));
      Byte(ByteAt(val >> 8));
      Byte(ByteAt(val >> 16));
      Byte(ByteAt(val >> 24));
      TakeFour(c, bytes[0], bytes[1], bytes[2], bytes[3]);
      Byte(ByteAt(val >> 32));
      Byte(ByteAt(val >> 40));
      Byte(ByteAt(val >> 48));
      Byte(ByteAt(val >> 56));
      TakeFour(TakeAll(c, bytes[..4]), bytes[4], bytes[5], bytes[6], bytes[7]);
      TakeMore(c, bytes[..4], bytes[4..]);
      assert bytes == bytes[..4] + bytes[4..] && bytes[..4] == [bytes[0], bytes[1], bytes[2], bytes[3]];
      assert bytes[4..] == [bytes[4], bytes[5], bytes[6], bytes[7]];
    }
  }

  lemma TakeFour(c: bv32, b0: bv8, b1: bv8, b2: bv8, b3: bv8)
    ensures TakeAll(c, [b0, b1, b2, b3]) == TakeByte(TakeByte(TakeByte(TakeByte(c, b0), b1), b2), b3)
  {
    hide TakeByte;
    var c1 := TakeByte(c, b0);
    var c2 := TakeByte(c1, b1);
    var c3 := TakeByte(c2, b2);
    assert [b0, b1, b2, b3][1..] == [b1, b2, b3] && [b1, b2, b3][1..] == [b2, b3] && [b2, b3][1..] == [b3]
        && [b3][1..] == [];
    assert TakeAll(c, [b0, b1, b2, b3]) == TakeAll(c1, [b1, b2, b3]);
    assert TakeAll(c1, [b1, b2, b3]) == TakeAll(c2, [b2, b3]);
    assert TakeAll(c2, [b2, b3]) == TakeAll(c3, [b3]);
    assert TakeAll(c3, [b3]) == TakeAll(TakeByte(c3, b3), []);
  }

  function Number(i: nat): bv32
    requires i < 256
  {
    i as bv32
  }

  method TableEntry(i: nat) returns (crc: bv32)
    requires i < 256
    ensures crc == Shifts(Number(i), 8)
  {
    hide Shift;
    crc := i as bv32;
    for j := 8 downto 0
      invariant Shifts(crc, j) == Shifts(Number(i), 8)
    {
      crc := ShiftOnce(crc);
    }
  }

  method ShiftOnce(c: bv32) returns (r: bv32)
    ensures r == Shift(c)
  {
    if c & 1 != 0 {
      NonZeroIsOdd(c);
      r := (c >> 1) ^ 0xEDB88320;
    } else {
      r := c >> 1;
    }
  }

  lemma NonZeroIsOdd(c: bv32)
    requires c & 1 != 0
    ensures Odd(c)
  {
  }

  /** A table index from a word of one byte. */
  function Index(x: bv32): (i: nat)
    requires x & 0xFFFFFF00 == 0
    ensures i < 256 && Number(i) == x
  {
    SmallIndex(x);
    SameNumber(x);
    x as int
  }

  lemma LowIsSmall(x: bv32)
    ensures LowByte(x) & 0xFFFFFF00 == 0
  {
  }

  lemma SmallIndex(x: bv32)
    requires x & 0xFFFFFF00 == 0
    ensures 0 <= x as int < 256
  {
  }

  lemma SameNumber(x: bv32)
    ensures (x as int) as bv32 == x
  {
  }

  function ByteAt(val: bv64): bv8 {
    (val & 0xFF) as bv8
  }

  function BytesOf(val: bv64): seq<bv8> {
    [ByteAt(val), ByteAt(val >> 8), ByteAt(val >> 16), ByteAt(val >> 24),
     ByteAt(val >> 32), ByteAt(val >> 40), ByteAt(val >> 48), ByteAt(val >> 56)]
  }

  /** The number that bytes make up, the least significant first. */
  function Long(w: seq<bv8>): bv64 {
    if w == [] then 0 else (w[0] as bv64) | (Long(w[1..]) << 8)
  }

  /** The eight bytes taken in are those of the word, in order of significance. */
  lemma BytesMakeWord(val: bv64)
    ensures |BytesOf(val)| == 8 && Long(BytesOf(val)) == val
  {
    hide ByteAt, Long;
    ShiftsAdd(val);
    var vs := [val, val >> 8, val >> 16, val >> 24, val >> 32, val >> 40, val >> 48, val >> 56];
    LongFrom(BytesOf(val), vs, 0);
  }

  function NextByte(val: bv64): bv64 {
    val >> 8
  }

  lemma {:induction false} LongFrom(bytes: seq<bv8>, vs: seq<bv64>, i: nat)
    requires i <= |bytes| == |vs| && forall j :: 0 <= j < |vs| ==> bytes[j] == ByteAt(vs[j])
    requires forall j :: 0 <= j < |vs| ==> NextByte(vs[j]) == if j == |vs| - 1 then 0 else vs[j + 1]
    ensures Long(bytes[i..]) == if i == |vs| then 0 else vs[i]
    decreases |bytes| - i
  {
    hide ByteAt, NextByte, Long;
    if i == |bytes| {
      LongNone(bytes[i..]);
    } else {
      LongFrom(bytes, vs, i + 1);
      LongAt(bytes, i);
      LowAndHigh(vs[i]);
      assert Long(bytes[i + 1..]) == NextByte(vs[i]);
    }
  }

  lemma LongNone(w: seq<bv8>)
    requires w == []
    ensures Long(w) == 0
  {
  }

  lemma LongAt(bytes: seq<bv8>, i: nat)
    requires i < |bytes|
    ensures Long(bytes[i..]) == (bytes[i] as bv64) | (Long(bytes[i + 1..]) << 8)
  {
    assert bytes[i..][1..] == bytes[i + 1..] && bytes[i..][0] == bytes[i];
  }

  lemma LowAndHigh(val: bv64)
    ensures (ByteAt(val) as bv64) | (NextByte(val) << 8) == val
  {
  }

  lemma ShiftsAdd(val: bv64)
    ensures NextByte(val) == val >> 8 && NextByte(val >> 8) == val >> 16 && NextByte(val >> 16) == val >> 24
    ensures NextByte(val >> 24) == val >> 32 && NextByte(val >> 32) == val >> 40 && NextByte(val >> 40) == val >> 48
    ensures NextByte(val >> 48) == val >> 56 && NextByte(val >> 56) == 0
  {
  }
}
