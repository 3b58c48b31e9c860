// The table-driven CRC32 of hw3/Utils.cc against the bit-serial CRC-32 of
// section 8 of RFC 1952, and the burst errors it is certain to detect.
module Crc32 {
  import opened Bytes

  const POLYNOMIAL: bv32 := 0x04C1_1DB7
  const REFLECTED_POLYNOMIAL: bv32 := 0xEDB8_8320

  function Shl1(x: bv32): bv32 { x << 1 }

  function Shr1(x: bv32): bv32 { x >> 1 }

  function Or(x: bv32, y: bv32): bv32 { x | y }

  function Xor(x: bv32, y: bv32): bv32 { x ^ y }

  function Low(x: bv32): bv32 { x & 1 }

  function Shl8(x: bv32): bv32 { x << 8 }

  function Shr8(x: bv32): bv32 { x >> 8 }

  function Wide(b: byte): (r: bv32)
    ensures r < 0x100
  {
    b as bv8 as bv32
  }

  // ---------- The reference: one bit at a time ----------

  // One step of the reflected division.
  function RightStep(c: bv32): bv32 {
    if c & 1 == 1 then (c >> 1) ^ REFLECTED_POLYNOMIAL else c >> 1
  }

  function Steps(n: nat, c: bv32): bv32
    decreases n
  {
    if n == 0 then c else RightStep(Steps(n - 1, c))
  }

  // The register after a byte has been shifted through it.
  function Shift(c: bv32, b: byte): bv32 { Steps(8, Xor(c, Wide(b))) }

  function ShiftAll(c: bv32, s: seq<byte>): bv32
    decreases s
  {
    if s == [] then c else ShiftAll(Shift(c, s[0]), s[1..])
  }

  function Crc(s: seq<byte>): bv32 { Xor(ShiftAll(0xFFFF_FFFF, s), 0xFFFF_FFFF) }

  // ---------- The code's own functions ----------

  // The low c bits of v in reverse order, on top of those already in acc.
  function ReverseOnto(v: bv32, c: nat, acc: bv32): bv32
    decreases c
  {
    if c == 0 then acc else ReverseOnto(Shr1(v), c - 1, Or(Shl1(acc), Low(v)))
  }

  function Reflect(v: bv32, c: nat): bv32 { ReverseOnto(v, c, 0) }

  // One step of the unreflected division.
  function LeftStep(c: bv32): bv32 {
    if c & 0x8000_0000 != 0 then Xor(Shl1(c), POLYNOMIAL) else Shl1(c)
  }

  function LeftSteps(n: nat, c: bv32): bv32 {
    if n == 0 then c else LeftStep(LeftSteps(n - 1, c))
  }

  function TableEntry(code: bv32): bv32 { Reflect(LeftSteps(8, Reflect(code, 8) << 24), 32) }

  // ---------- Reflection ----------

  function ShiftBy(x: bv32, k: nat): bv32
    decreases k
  {
    if k == 0 then x else ShiftBy(Shl1(x), k - 1)
  }

  lemma OneDoubles(k: nat)
    requires 0 < k < 32
    ensures (1 as bv32) << k == Shl1((1 as bv32) << (k - 1))
  {
    if k < 16 {
      assert k in {1, 2, 3, 4, 5, 6, 7, 8, 9, 10, 11, 12, 13, 14, 15};
    } else {
      assert k in {16, 17, 18, 19, 20, 21, 22, 23, 24, 25, 26, 27, 28, 29, 30, 31};
    }
  }

  lemma OrDoubles(x: bv32, y: bv32)
    ensures Shl1(Or(x, y)) == Or(Shl1(x), Shl1(y))
  {
  }

  lemma {:induction false} ShiftByLast(x: bv32, k: nat)
    requires k > 0
    ensures ShiftBy(x, k) == Shl1(ShiftBy(x, k - 1))
    decreases k
  {
    hide Shl1;
    if k > 1 { ShiftByLast(Shl1(x), k - 1); }
  }

  lemma {:induction false} ShiftOne(k: nat)
    requires k < 32
    ensures ShiftBy(1, k) == (1 as bv32) << k
  {
    hide Shl1;
    if k > 0 {
      ShiftOne(k - 1);
      ShiftByLast(1, k);
      OneDoubles(k);
    }
  }

  lemma {:induction false} ShiftZero(k: nat)
    ensures ShiftBy(0, k) == 0
  {
    if k > 0 { ShiftZero(k - 1); }
  }

  lemma {:induction false} ShiftByOr(x: bv32, y: bv32, k: nat)
    ensures ShiftBy(Or(x, y), k) == Or(ShiftBy(x, k), ShiftBy(y, k))
    decreases k
  {
    hide Shl1, Or;
    if k > 0 {
      OrDoubles(x, y);
      ShiftByOr(Shl1(x), Shl1(y), k - 1);
    }
  }

  lemma LowBit(x: bv32)
    ensures Low(x) == if x & 1 == 1 then 1 else 0
  {
  }

  lemma OrZero(x: bv32)
    ensures Or(x, 0) == x
  {
  }

  // Setting the next bit of the result is reading the next bit of the input.
  lemma ReflectBit(val: bv32, acc: bv32, rest: bv32, k: nat)
    requires k < 32 && val == ShiftBy(acc, k + 1)
    ensures (if rest & 1 == 1 then Or(val, (1 as bv32) << k) else val) == ShiftBy(Or(Shl1(acc), Low(rest)), k)
  {
    hide Shl1, Or, Low;
    LowBit(rest);
    ShiftByOr(Shl1(acc), Low(rest), k);
    ShiftOne(k);
    ShiftZero(k);
    OrZero(val);
  }

  method CRC32Reflect(reflectMe: bv32, c: nat) returns (val: bv32)
    requires c <= 32
    ensures val == Reflect(reflectMe, c)
  {
    hide Shl1, Shr1, Or, Low;
    val := 0;
    var rest := reflectMe;
    var position := 1;
    ghost var acc: bv32 := 0;
    ShiftZero(c);
    while position < c + 1
      invariant 1 <= position <= c + 1
      invariant ReverseOnto(rest, c - position + 1, acc) == Reflect(reflectMe, c)
      invariant val == ShiftBy(acc, c - position + 1)
    {
      ReflectBit(val, acc, rest, c - position);
      acc := Or(Shl1(acc), Low(rest));
      if rest & 1 == 1 {
        val := Or(val, (1 as bv32) << (c - position));
      }
      rest := Shr1(rest);
      position := position + 1;
    }
  }

  // Reversal of all 32 bits by swapping neighbours, pairs, nibbles, bytes and halves.
  function Swap(v: bv32): bv32 {
    var a := ((v >> 1) & 0x5555_5555) | ((v & 0x5555_5555) << 1);
    var b := ((a >> 2) & 0x3333_3333) | ((a & 0x3333_3333) << 2);
    var c := ((b >> 4) & 0x0F0F_0F0F) | ((b & 0x0F0F_0F0F) << 4);
    var d := ((c >> 8) & 0x00FF_00FF) | ((c & 0x00FF_00FF) << 8);
    (d >> 16) | (d << 16)
  }

  function Drop(v: bv32, n: nat): bv32
    decreases n
  {
    if n == 0 then v else Shr1(Drop(v, n - 1))
  }

  function Take(v: bv32, n: nat, acc: bv32): bv32
    decreases n
  {
    if n == 0 then acc else Or(Shl1(Take(v, n - 1, acc)), Low(Drop(v, n - 1)))
  }

  lemma {:induction false} ReverseSplit(v: bv32, c: nat, acc: bv32, n: nat)
    requires n <= c
    ensures ReverseOnto(v, c, acc) == ReverseOnto(Drop(v, n), c - n, Take(v, n, acc))
  {
    hide Shl1, Shr1, Or, Low;
    if n > 0 { ReverseSplit(v, c, acc, n - 1); }
  }

  lemma DropEight(v: bv32)
    ensures Drop(v, 8) == v >> 8
  {
    hide Shr1;
    ShrAgain(v);
    assert Drop(v, 4) == v >> 4;
  }

  lemma ShrAgain(v: bv32)
    ensures Shr1(v) == v >> 1 && Shr1(v >> 1) == v >> 2 && Shr1(v >> 2) == v >> 3 && Shr1(v >> 3) == v >> 4
    ensures Shr1(v >> 4) == v >> 5 && Shr1(v >> 5) == v >> 6 && Shr1(v >> 6) == v >> 7 && Shr1(v >> 7) == v >> 8
  {
  }

  function NextByte(acc: bv32, v: bv32): bv32 { (acc << 8) | (Swap(v) >> 24) }

  lemma TakeEight(v: bv32, acc: bv32)
    ensures Take(v, 8, acc) == NextByte(acc, v)
  {
  }

  lemma ReverseByte(v: bv32, c: nat, acc: bv32)
    requires c >= 8
    ensures ReverseOnto(v, c, acc) == ReverseOnto(v >> 8, c - 8, NextByte(acc, v))
  {
    hide Shl1, Shr1, Or, Low, NextByte, Drop, Take;
    ReverseSplit(v, c, acc, 8);
    DropEight(v);
    TakeEight(v, acc);
  }

  lemma SwapBytes(v: bv32)
    ensures NextByte(NextByte(NextByte(NextByte(0, v), v >> 8), v >> 16), v >> 24) == Swap(v)
    ensures NextByte(0, v) == Swap(v) >> 24
  {
  }

  lemma ShiftTwice(v: bv32)
    ensures (v >> 8) >> 8 == v >> 16 && (v >> 16) >> 8 == v >> 24
  {
  }

  lemma ReflectWord(v: bv32)
    ensures Reflect(v, 32) == Swap(v)
    ensures Reflect(v, 8) == Swap(v) >> 24
  {
    hide Shl1, Shr1, Or, Low, NextByte, Swap;
    ReverseByte(v, 8, 0);
    ReverseByte(v, 32, 0);
    ReverseByte(v >> 8, 24, NextByte(0, v));
    ShiftTwice(v);
    ReverseByte(v >> 16, 16, NextByte(NextByte(0, v), v >> 8));
    ReverseByte(v >> 24, 8, NextByte(NextByte(NextByte(0, v), v >> 8), v >> 16));
    SwapBytes(v);
  }

  lemma SwapOfShift(v: bv32)
    ensures Swap(v << 1) == Swap(v) >> 1
  {
  }

  lemma SwapOfXor(v: bv32, w: bv32)
    ensures Swap(v ^ w) == Swap(v) ^ Swap(w)
  {
  }

  lemma SwapShift(v: bv32)
    ensures Swap(Shl1(v)) == Shr1(Swap(v))
  {
    hide Swap;
    SwapOfShift(v);
  }

  lemma SwapXor(v: bv32, w: bv32)
    ensures Swap(Xor(v, w)) == Xor(Swap(v), Swap(w))
  {
    hide Swap;
    SwapOfXor(v, w);
  }

  lemma SwapTop(v: bv32)
    ensures (v & 0x8000_0000 != 0) <==> (Swap(v) & 1 == 1)
  {
  }

  lemma SwapPolynomial()
    ensures Swap(POLYNOMIAL) == REFLECTED_POLYNOMIAL
  {
  }

  lemma RightStepForm(c: bv32)
    ensures RightStep(c) == if c & 1 == 1 then Xor(Shr1(c), REFLECTED_POLYNOMIAL) else Shr1(c)
  {
  }

  lemma SwapStep(v: bv32)
    ensures Swap(LeftStep(v)) == RightStep(Swap(v))
  {
    hide Swap, Xor, Shl1, Shr1, RightStep;
    RightStepForm(Swap(v));
    SwapShift(v);
    SwapTop(v);
    if v & 0x8000_0000 != 0 {
      SwapXor(Shl1(v), POLYNOMIAL);
      SwapPolynomial();
    }
  }

  // Reflecting any number of left-shift steps with the polynomial is taking as
  // many right-shift steps with the reflected polynomial.
  lemma {:induction false} ReflectSteps(n: nat, c: bv32)
    ensures Reflect(LeftSteps(n, c), 32) == Steps(n, Reflect(c, 32))
  {
    hide LeftStep, RightStep, Reflect, Swap;
    if n > 0 {
      ReflectSteps(n - 1, c);
      ReflectWord(LeftSteps(n - 1, c));
      ReflectWord(LeftSteps(n, c));
      SwapStep(LeftSteps(n - 1, c));
    }
  }

  lemma SwapCode(code: bv32)
    requires code < 0x100
    ensures Swap((Swap(code) >> 24) << 24) == code
  {
  }

  lemma TableEntryIsEightSteps(code: bv32)
    requires code < 0x100
    ensures TableEntry(code) == Steps(8, code)
  {
    hide LeftStep, RightStep, Reflect, Swap, Steps, LeftSteps;
    ReflectWord(code);
    var start := Reflect(code, 8) << 24;
    ReflectSteps(8, start);
    ReflectWord(start);
    SwapCode(code);
  }

  // ---------- Linearity ----------

  // What a step adds to the shifted register.
  function Feedback(c: bv32): bv32 { if c & 1 == 1 then REFLECTED_POLYNOMIAL else 0 }

  lemma RightStepFeedback(c: bv32)
    ensures RightStep(c) == Xor(Shr1(c), Feedback(c))
  {
    hide Shr1, Xor;
    RightStepForm(c);
    XorUnit(Shr1(c));
  }

  lemma XorUnit(x: bv32)
    ensures Xor(x, 0) == x && Xor(0, x) == x && Xor(x, x) == 0
  {
  }

  lemma XorComm(x: bv32, y: bv32)
    ensures Xor(x, y) == Xor(y, x)
  {
  }

  lemma XorAssoc(x: bv32, y: bv32, z: bv32)
    ensures Xor(x, Xor(y, z)) == Xor(Xor(x, y), z)
  {
  }

  lemma XorExchange(a: bv32, b: bv32, c: bv32, d: bv32)
    ensures Xor(Xor(a, b), Xor(c, d)) == Xor(Xor(a, c), Xor(b, d))
  {
    hide Xor;
    XorAssoc(Xor(a, b), c, d);
    XorAssoc(a, b, c);
    XorComm(b, c);
    XorAssoc(a, c, b);
    XorAssoc(Xor(a, c), b, d);
  }

  lemma LowOfXor(x: bv32, y: bv32)
    ensures (Xor(x, y) & 1 == 1) <==> ((x & 1 == 1) != (y & 1 == 1))
  {
  }

  lemma FeedbackXor(x: bv32, y: bv32)
    ensures Feedback(Xor(x, y)) == Xor(Feedback(x), Feedback(y))
  {
    hide Xor;
    LowOfXor(x, y);
    XorUnit(REFLECTED_POLYNOMIAL);
    XorUnit(0);
  }

  lemma ShrXor(x: bv32, y: bv32)
    ensures Shr1(Xor(x, y)) == Xor(Shr1(x), Shr1(y))
  {
  }

  lemma RightStepXor(x: bv32, y: bv32)
    ensures RightStep(Xor(x, y)) == Xor(RightStep(x), RightStep(y))
  {
    hide RightStep, Xor, Shr1, Feedback;
    RightStepFeedback(x);
    RightStepFeedback(y);
    RightStepFeedback(Xor(x, y));
    ShrXor(x, y);
    FeedbackXor(x, y);
    XorExchange(Shr1(x), Shr1(y), Feedback(x), Feedback(y));
  }

  lemma {:induction false} StepsXor(n: nat, x: bv32, y: bv32)
    ensures Steps(n, Xor(x, y)) == Xor(Steps(n, x), Steps(n, y))
  {
    hide RightStep, Xor;
    if n > 0 {
      StepsXor(n - 1, x, y);
      RightStepXor(Steps(n - 1, x), Steps(n - 1, y));
    }
  }

  // ---------- A byte at a time through the table ----------

  // Where a byte sends the register in the table.
  function Index(c: bv32, b: bv32): bv32 { (c & 0xFF) ^ b }

  function HighPart(c: bv32): bv32 { c & 0xFFFF_FF00 }

  lemma SplitLowByte(c: bv32, b: bv32)
    requires b < 0x100
    ensures Xor(HighPart(c), Index(c, b)) == Xor(c, b)
    ensures Index(c, b) < 0x100
  {
  }

  // Bits above the low byte pass through eight steps unchanged.
  lemma HighBits(c: bv32)
    ensures Steps(8, HighPart(c)) == Shr8(c)
  {
  }

  lemma TableFold(c: bv32, b: byte)
    ensures Index(c, Wide(b)) < 0x100
    ensures Xor(Shr8(c), TableEntry(Index(c, Wide(b)))) == Shift(c, b)
  {
    hide Steps, TableEntry, Wide, Xor, Shr8, Index, HighPart;
    var low := Index(c, Wide(b));
    SplitLowByte(c, Wide(b));
    TableEntryIsEightSteps(low);
    StepsXor(8, HighPart(c), low);
    HighBits(c);
  }

  lemma LeftStepForm(t: bv32)
    ensures (if t & 0x8000_0000 != 0 then (t << 1) ^ POLYNOMIAL else (t << 1) ^ 0) == LeftStep(t)
  {
  }

  lemma IndexInTable(x: bv32)
    requires x < 0x100
    ensures 0 <= x as int < 256 && (x as int) as bv32 == x
  {
  }

  // The same for a code that is a natural number.
  lemma CodeIsEightSteps(code: nat)
    requires code < 0x100
    ensures TableEntry(code as bv32) == Steps(8, code as bv32)
  {
    hide TableEntry, Steps, Reflect, LeftSteps;
    CodeInTable(code);
    TableEntryIsEightSteps(code as bv32);
  }

  lemma CodeInTable(code: nat)
    requires code < 0x100
    ensures (code as bv32) < 0x100
  {
  }

  class CRC32 {
    var crcState: bv32
    var finalized: bool
    const table: array<bv32>
    ghost var folded: seq<byte>

    ghost predicate Valid()
      reads this, table
    {
      table.Length == 256 &&
      (forall i {:trigger table[i]} :: 0 <= i < 256 ==> table[i] == TableEntry(i as bv32)) &&
      crcState == if finalized then Crc(folded) else ShiftAll(0xFFFF_FFFF, folded)
    }

    constructor ()
      ensures Valid() && fresh(table) && !finalized && folded == []
    {
      table := new bv32[256];
      finalized := false;
      crcState := 0xFFFF_FFFF;
      folded := [];
      new;
      Initialize();
    }

    method Initialize()
      requires table.Length == 256
      modifies table
      ensures forall i {:trigger table[i]} :: 0 <= i < 256 ==>
                table[i] == TableEntry(i as bv32) == Steps(8, i as bv32)
    {
      hide Reflect, LeftStep, TableEntry, LeftSteps, Steps, RightStep;
      var code := 0;
      while code <= 0xFF
        invariant 0 <= code <= 0x100
        invariant forall i {:trigger table[i]} :: 0 <= i < code ==> table[i] == TableEntry(i as bv32)
      {
        var entry := TableLoop(code as bv32);
        table[code] := entry;
        code := code + 1;
      }
      forall i {:trigger table[i]} | 0 <= i < 256
        ensures table[i] == TableEntry(i as bv32) == Steps(8, i as bv32)
      {
        CodeIsEightSteps(i);
      }
    }

    // The body of the loop over the codes.
    method TableLoop(code: bv32) returns (t: bv32)
      ensures t == TableEntry(code)
    {
      hide Reflect, LeftStep, Steps;
      t := CRC32Reflect(code, 8);
      t := t << 24;
      ghost var start := t;
      var position := 0;
      while position < 8
        invariant 0 <= position <= 8
        invariant t == LeftSteps(position, start)
      {
        LeftStepForm(t);
        t := if t & 0x8000_0000 != 0 then (t << 1) ^ POLYNOMIAL else (t << 1) ^ 0;
        position := position + 1;
      }
      t := CRC32Reflect(t, 32);
    }

    method FoldByteIntoCRC(nextByte: byte)
      requires Valid() && !finalized
      modifies this
      ensures Valid() && !finalized && folded == old(folded) + [nextByte]
    {
      hide TableEntry, Shift, Xor, Shr8, Index, Wide;
      TableFold(crcState, nextByte);
      var index := Index(crcState, Wide(nextByte));
      IndexInTable(index);
      ShiftAllSnoc(0xFFFF_FFFF, folded, nextByte);
      crcState := Xor(Shr8(crcState), table[index as int]);
      folded := folded + [nextByte];
    }

    method GetFinalCRC() returns (crc: bv32)
      requires Valid()
      modifies this`crcState, this`finalized
      ensures Valid() && finalized
      ensures crc == Crc(folded)
    {
      hide Xor, ShiftAll;
      if !finalized {
        finalized := true;
        crcState := Xor(crcState, 0xFFFF_FFFF);
      }
      crc := crcState;
    }
  }

  lemma {:induction false} ShiftAllAppend(c: bv32, s: seq<byte>, t: seq<byte>)
    ensures ShiftAll(c, s + t) == ShiftAll(ShiftAll(c, s), t)
    decreases s
  {
    hide Shift;
    if s == [] {
      assert s + t == t;
    } else {
      assert (s + t)[1..] == s[1..] + t;
      ShiftAllAppend(Shift(c, s[0]), s[1..], t);
    }
  }

  lemma ShiftAllSnoc(c: bv32, s: seq<byte>, b: byte)
    ensures ShiftAll(c, s + [b]) == Shift(ShiftAll(c, s), b)
  {
    hide Shift;
    ShiftAllAppend(c, s, [b]);
    assert [b][1..] == [];
  }

  // ---------- Burst errors ----------

  lemma RightStepInjective(x: bv32, y: bv32)
    requires RightStep(x) == RightStep(y)
    ensures x == y
  {
  }

  lemma {:induction false} StepsInjective(n: nat, x: bv32, y: bv32)
    requires Steps(n, x) == Steps(n, y)
    ensures x == y
  {
    hide RightStep;
    if n > 0 {
      RightStepInjective(Steps(n - 1, x), Steps(n - 1, y));
      StepsInjective(n - 1, x, y);
    }
  }

  lemma {:induction false} StepsAdd(m: nat, n: nat, c: bv32)
    ensures Steps(m + n, c) == Steps(m, Steps(n, c))
  {
    hide RightStep;
    if m > 0 { StepsAdd(m - 1, n, c); }
  }

  lemma XorCancel(x: bv32, y: bv32, z: bv32)
    requires Xor(x, z) == Xor(y, z)
    ensures x == y
  {
  }

  // The same bytes keep two different registers different.
  lemma {:induction false} ShiftAllInjective(c: bv32, d: bv32, s: seq<byte>)
    requires ShiftAll(c, s) == ShiftAll(d, s)
    ensures c == d
    decreases s
  {
    hide Steps, Wide;
    if s != [] {
      ShiftAllInjective(Shift(c, s[0]), Shift(d, s[0]), s[1..]);
      StepsInjective(8, c ^ Wide(s[0]), d ^ Wide(s[0]));
      XorCancel(c, d, Wide(s[0]));
    }
  }

  // Up to four bytes as one little-endian word.
  function Word(w: seq<byte>): bv32 {
    if w == [] then 0 else Xor(Wide(w[0]), Shl8(Word(w[1..])))
  }

  lemma WordStep(b: bv32, x: bv32)
    requires b < 0x100
    ensures x == 0 ==> Xor(b, Shl8(x)) < 0x100
    ensures x < 0x100 ==> Xor(b, Shl8(x)) < 0x1_0000
    ensures x < 0x1_0000 ==> Xor(b, Shl8(x)) < 0x100_0000
  {
  }

  lemma {:induction false} WordBound(w: seq<byte>)
    requires |w| <= 3
    ensures Word(w) < 0x100_0000
    ensures |w| <= 2 ==> Word(w) < 0x1_0000
    ensures |w| <= 1 ==> Word(w) < 0x100
    ensures |w| == 0 ==> Word(w) == 0
  {
    hide Xor, Wide, Shl8;
    if w != [] {
      WordBound(w[1..]);
      WordStep(Wide(w[0]), Word(w[1..]));
    }
  }

  lemma WordHead(b: bv32, x: bv32, b': bv32, x': bv32)
    requires b < 0x100 && b' < 0x100 && x < 0x100_0000 && x' < 0x100_0000
    requires Xor(b, Shl8(x)) == Xor(b', Shl8(x'))
    ensures b == b' && x == x'
  {
  }

  lemma WideInjective(b: byte, b': byte)
    requires Wide(b) == Wide(b')
    ensures b == b'
  {
    WideNarrow(b);
    WideNarrow(b');
  }

  lemma WideNarrow(b: byte)
    ensures (b as bv8) as int == b
  {
    var x := NarrowFor(b);
    NarrowBack(x);
  }

  // Every byte value is the value of some bit vector.
  lemma {:induction false} NarrowFor(b: byte) returns (x: bv8)
    ensures x as int == b
  {
    if b == 0 {
      x := 0;
    } else {
      x := NarrowFor(b - 1);
      NarrowSucc(x);
      x := x + 1;
    }
  }

  lemma NarrowSucc(x: bv8)
    requires x < 0xFF
    ensures (x + 1) as int == x as int + 1
  {
  }

  lemma NarrowBack(x: bv8)
    ensures (x as int) as bv8 == x
  {
  }

  lemma {:induction false} WordInjective(w: seq<byte>, w': seq<byte>)
    requires |w| == |w'| <= 4 && Word(w) == Word(w')
    ensures w == w'
  {
    hide Xor, Wide, Shl8;
    if w != [] {
      WordBound(w[1..]);
      WordBound(w'[1..]);
      WordHead(Wide(w[0]), Word(w[1..]), Wide(w'[0]), Word(w'[1..]));
      WideInjective(w[0], w'[0]);
      WordInjective(w[1..], w'[1..]);
    }
  }

  lemma LowBitsShifted(x: bv32)
    requires x < 0x100_0000
    ensures Steps(8, Shl8(x)) == x
  {
  }

  // Shifting in at most four bytes is adding them to the register and stepping.
  lemma {:induction false} ShiftWord(c: bv32, w: seq<byte>)
    requires |w| <= 4
    ensures ShiftAll(c, w) == Steps(8 * |w|, Xor(c, Word(w)))
    decreases w
  {
    hide Xor, Wide, Shl8, RightStep;
    if w == [] {
      XorUnit(c);
    } else {
      var b, rest := Wide(w[0]), Word(w[1..]);
      ShiftWord(Shift(c, w[0]), w[1..]);
      XorAssoc(c, b, Shl8(rest));
      StepsXor(8, Xor(c, b), Shl8(rest));
      WordBound(w[1..]);
      LowBitsShifted(rest);
      StepsAdd(8 * (|w| - 1), 8, Xor(c, Word(w)));
    }
  }

  // From the same register, different windows followed by the same bytes end
  // in different registers.
  lemma WindowSeen(c: bv32, w: seq<byte>, w': seq<byte>, tail: seq<byte>)
    requires |w| == |w'| <= 4
    requires ShiftAll(ShiftAll(c, w), tail) == ShiftAll(ShiftAll(c, w'), tail)
    ensures w == w'
  {
    hide Xor, Steps, ShiftAll, Word;
    ShiftAllInjective(ShiftAll(c, w), ShiftAll(c, w'), tail);
    ShiftWord(c, w);
    ShiftWord(c, w');
    StepsInjective(8 * |w|, Xor(c, Word(w)), Xor(c, Word(w')));
    XorCancelLeft(c, Word(w), Word(w'));
    WordInjective(w, w');
  }

  // Two equal-length sequences that differ, but only inside a window of four
  // bytes, never have the same CRC.
  lemma BurstDetected(a: seq<byte>, b: seq<byte>, i: nat)
    requires |a| == |b| && a != b
    requires forall k :: 0 <= k < |a| && !(i <= k < i + 4) ==> a[k] == b[k]
    ensures Crc(a) != Crc(b)
  {
    hide Xor, ShiftAll;
    var lo, hi := Min(i, |a|), Min(i + 4, |a|);
    var init: bv32 := 0xFFFF_FFFF;
    assert a[..lo] == b[..lo] && a[hi..] == b[hi..];
    assert a == a[..lo] + a[lo..hi] + a[hi..];
    assert b == b[..lo] + b[lo..hi] + b[hi..];
    if Crc(a) == Crc(b) {
      XorCancel(ShiftAll(init, a), ShiftAll(init, b), 0xFFFF_FFFF);
      Windows(init, a, lo, hi);
      Windows(init, b, lo, hi);
      WindowSeen(ShiftAll(init, a[..lo]), a[lo..hi], b[lo..hi], a[hi..]);
    }
  }

  lemma Windows(c: bv32, s: seq<byte>, lo: nat, hi: nat)
    requires lo <= hi <= |s|
    ensures ShiftAll(c, s) == ShiftAll(ShiftAll(ShiftAll(c, s[..lo]), s[lo..hi]), s[hi..])
  {
    ShiftAllAppend(c, s[..lo], s[lo..]);
    ShiftAllAppend(ShiftAll(c, s[..lo]), s[lo..hi], s[hi..]);
    assert s == s[..lo] + s[lo..] && s[lo..] == s[lo..hi] + s[hi..];
  }

  lemma XorCancelLeft(z: bv32, x: bv32, y: bv32)
    requires Xor(z, x) == Xor(z, y)
    ensures x == y
  {
  }

  // ---------- The check value ----------

  lemma EightSteps(c: bv32)
    ensures Steps(8, c) ==
            RightStep(RightStep(RightStep(RightStep(RightStep(RightStep(RightStep(RightStep(c))))))))
  {
    hide RightStep;
  }

  lemma KnownShift(c: bv32, b: byte, x: bv32, r: bv32)
    requires Xor(c, Wide(b)) == x
    requires RightStep(RightStep(RightStep(RightStep(RightStep(RightStep(RightStep(RightStep(x)))))))) == r
    ensures Shift(c, b) == r
  {
    hide RightStep;
    EightSteps(x);
  }

  // The states of the CRC while it reads s.
  predicate States(h: seq<bv32>, s: seq<byte>) {
    |h| == |s| + 1 && forall i {:trigger s[i]} :: 0 <= i < |s| ==> Shift(h[i], s[i]) == h[i + 1]
  }

  lemma {:induction false} StatesLead(h: seq<bv32>, s: seq<byte>)
    requires States(h, s)
    ensures ShiftAll(h[0], s) == h[|s|]
    decreases s
  {
    hide Shift;
    if s != [] {
      assert Shift(h[0], s[0]) == h[1];
      var rest, h' := s[1..], h[1..];
      forall i {:trigger rest[i]} | 0 <= i < |rest| ensures Shift(h'[i], rest[i]) == h'[i + 1] {
        assert rest[i] == s[i + 1];
      }
      StatesLead(h', rest);
    }
  }

  lemma KnownStates1()
    ensures Shift(0xFFFF_FFFF, 49) == 0x7C23_1048
    ensures Shift(0x7C23_1048, 50) == 0xB0AC_BB32
    ensures Shift(0xB0AC_BB32, 51) == 0x77B7_9C2D
  {
    KnownShift(0xFFFF_FFFF, 49, 0xFFFF_FFCE, 0x7C23_1048);
    KnownShift(0x7C23_1048, 50, 0x7C23_107A, 0xB0AC_BB32);
    KnownShift(0xB0AC_BB32, 51, 0xB0AC_BB01, 0x77B7_9C2D);
  }

  lemma KnownStates2()
    ensures Shift(0x77B7_9C2D, 52) == 0x641C_1F5C
    ensures Shift(0x641C_1F5C, 53) == 0x340A_C5E3
    ensures Shift(0x340A_C5E3, 54) == 0xF68D_2C9E
  {
    KnownShift(0x77B7_9C2D, 52, 0x77B7_9C19, 0x641C_1F5C);
    KnownShift(0x641C_1F5C, 53, 0x641C_1F69, 0x340A_C5E3);
    KnownShift(0x340A_C5E3, 54, 0x340A_C5D5, 0xF68D_2C9E);
  }

  lemma KnownStates3()
    ensures Shift(0xF68D_2C9E, 55) == 0xAFFC_9660
    ensures Shift(0xAFFC_9660, 56) == 0x651F_2550
    ensures Shift(0x651F_2550, 57) == 0x340B_C6D9
  {
    KnownShift(0xF68D_2C9E, 55, 0xF68D_2CA9, 0xAFFC_9660);
    KnownShift(0xAFFC_9660, 56, 0xAFFC_9658, 0x651F_2550);
    KnownShift(0x651F_2550, 57, 0x651F_2569, 0x340B_C6D9);
  }

  // The CRC of "123456789".
  lemma CheckValue()
    ensures Crc([49, 50, 51, 52, 53, 54, 55, 56, 57]) == 0xCBF4_3926
  {
    hide Shift;
    KnownStates1();
    KnownStates2();
    KnownStates3();
    var h := [0xFFFF_FFFF, 0x7C23_1048, 0xB0AC_BB32, 0x77B7_9C2D, 0x641C_1F5C, 0x340A_C5E3,
              0xF68D_2C9E, 0xAFFC_9660, 0x651F_2550, 0x340B_C6D9];
    StatesLead(h, [49, 50, 51, 52, 53, 54, 55, 56, 57]);
  }
}
