/**
 CRC-32C (section 12.1 of RFC 3720): the table driven checksum of the source, the
 bit serial division it stands for, and how much damage it is certain to see.

 A 32 bit register is the sequence of its bits, least significant first, which is
 the polynomial over GF(2) that the checksum computes with.
 */
module Crc32c {
  import opened Bytes

  type word = w: seq<bool> | |w| == 32 witness seq(32, _ => false)

  function Num(b: bool): nat { if b then 1 else 0 }

  /** The k low bits of n, least significant first. */
  function BitsOf(n: nat, k: nat): (bits: seq<bool>)
    ensures |bits| == k
    decreases k + 0  // not k alone: calls with a literal k are then unfolded step by step, not all at once
  {
    if k == 0 then [] else [n % 2 == 1] + BitsOf(n / 2, k - 1)
  }

  function ValueOf(bits: seq<bool>): nat {
    if bits == [] then 0 else Num(bits[0]) + 2 * ValueOf(bits[1..])
  }

  function Pow2(k: nat): nat
    decreases k + 0  // as for BitsOf
  {
    if k == 0 then 1 else 2 * Pow2(k - 1)
  }

  lemma {:induction false} BitsOfValue(bits: seq<bool>)
    ensures BitsOf(ValueOf(bits), |bits|) == bits
  {
    if bits != [] {
      BitsOfValue(bits[1..]);
      assert bits == [bits[0]] + bits[1..];
    }
  }

  lemma {:induction false} ValueOfBits(n: nat, k: nat)
    requires n < Pow2(k)
    ensures ValueOf(BitsOf(n, k)) == n
    decreases k
  {
    if k > 0 {
      ValueOfBits(n / 2, k - 1);
      assert BitsOf(n, k)[1..] == BitsOf(n / 2, k - 1);
    }
  }

  lemma {:induction false} ValueBound(bits: seq<bool>)
    ensures ValueOf(bits) < Pow2(|bits|)
  {
    if bits != [] {
      ValueBound(bits[1..]);
    }
  }

  lemma Pow2Values()
    ensures Pow2(8) == 256 && Pow2(32) == U32
  {
    assert Pow2(4) == 2 * Pow2(3) && Pow2(3) == 2 * Pow2(2) && Pow2(2) == 2 * Pow2(1) && Pow2(1) == 2 * Pow2(0);
    assert Pow2(8) == 2 * Pow2(7) && Pow2(7) == 2 * Pow2(6) && Pow2(6) == 2 * Pow2(5) && Pow2(5) == 2 * Pow2(4);
    assert Pow2(12) == 2 * Pow2(11) && Pow2(11) == 2 * Pow2(10) && Pow2(10) == 2 * Pow2(9) && Pow2(9) == 2 * Pow2(8);
    assert Pow2(16) == 2 * Pow2(15) && Pow2(15) == 2 * Pow2(14) && Pow2(14) == 2 * Pow2(13) && Pow2(13) == 2 * Pow2(12);
    assert Pow2(20) == 2 * Pow2(19) && Pow2(19) == 2 * Pow2(18) && Pow2(18) == 2 * Pow2(17) && Pow2(17) == 2 * Pow2(16);
    assert Pow2(24) == 2 * Pow2(23) && Pow2(23) == 2 * Pow2(22) && Pow2(22) == 2 * Pow2(21) && Pow2(21) == 2 * Pow2(20);
    assert Pow2(28) == 2 * Pow2(27) && Pow2(27) == 2 * Pow2(26) && Pow2(26) == 2 * Pow2(25) && Pow2(25) == 2 * Pow2(24);
    assert Pow2(32) == 2 * Pow2(31) && Pow2(31) == 2 * Pow2(30) && Pow2(30) == 2 * Pow2(29) && Pow2(29) == 2 * Pow2(28);
  }

  // ---------------------------------------------------------- register algebra

  function Zeros(k: nat): seq<bool> { seq(k, _ => false) }

  function Xor(a: word, b: word): word { seq(32, i requires 0 <= i < 32 => a[i] != b[i]) }

  function Not(a: word): word { seq(32, i requires 0 <= i < 32 => !a[i]) }

  function Shift(a: word): word { a[1..] + [false] }

  /** The reflected Castagnoli polynomial. */
  function Polynomial(): (p: word)
    ensures p[31]
  {
    PolynomialTop();
    BitsOf(0x82F63B78, 32)
  }

  lemma {:induction false} BitsOfTop(n: nat, k: nat)
    requires k > 0 && Pow2(k - 1) <= n < Pow2(k)
    ensures BitsOf(n, k)[k - 1]
    decreases k
  {
    if k > 1 {
      BitsOfTop(n / 2, k - 1);
    }
  }

  lemma PolynomialTop()
    ensures BitsOf(0x82F63B78, 32)[31]
  {
    Pow2Values();
    assert Pow2(32) == 2 * Pow2(31);
    BitsOfTop(0x82F63B78, 32);
  }

  lemma OneBit(bits: seq<bool>, j: nat)
    requires j < |bits|
    ensures ValueOf(bits[j..]) == Num(bits[j]) + 2 * ValueOf(bits[j + 1..])
  {
    assert bits[j..][1..] == bits[j + 1..];
  }

  lemma FourBits(bits: seq<bool>, j: nat, rest: nat)
    requires j + 4 <= |bits| && ValueOf(bits[j + 4..]) == rest
    ensures ValueOf(bits[j..])
         == Num(bits[j]) + 2 * Num(bits[j + 1]) + 4 * Num(bits[j + 2]) + 8 * Num(bits[j + 3]) + 16 * rest
  {
    OneBit(bits, j);
    OneBit(bits, j + 1);
    OneBit(bits, j + 2);
    OneBit(bits, j + 3);
  }

  /** The powers of the Castagnoli polynomial below 32, highest first, as the bits of a register. */
  function Castagnoli(): word {
    seq(32, i requires 0 <= i < 32 => 31 - i in {28, 27, 26, 25, 23, 22, 20, 19, 18, 14, 13, 11, 10, 9, 8, 6, 0})
  }

  lemma CastagnoliLow(p: word)
    requires p == Castagnoli() && ValueOf(p[16..]) == 0x82F6
    ensures ValueOf(p[0..]) == 0x82F63B78
  {
    assert ValueOf(p[12..]) == 0x82F63 by { FourBits(p, 12, 0x82F6); }
    assert ValueOf(p[8..]) == 0x82F63B by { FourBits(p, 8, 0x82F63); }
    assert ValueOf(p[4..]) == 0x82F63B7 by { FourBits(p, 4, 0x82F63B); }
    assert ValueOf(p[0..]) == 0x82F63B78 by { FourBits(p, 0, 0x82F63B7); }
  }

  lemma CastagnoliHigh(p: word)
    requires p == Castagnoli()
    ensures ValueOf(p[16..]) == 0x82F6
  {
    assert p[32..] == [];
    assert ValueOf(p[28..]) == 0x8 by { FourBits(p, 28, 0); }
    assert ValueOf(p[24..]) == 0x82 by { FourBits(p, 24, 0x8); }
    assert ValueOf(p[20..]) == 0x82F by { FourBits(p, 20, 0x82); }
    assert ValueOf(p[16..]) == 0x82F6 by { FourBits(p, 16, 0x82F); }
  }

  /** The constant of the source spells the Castagnoli polynomial. */
  lemma PolynomialIsCastagnoli()
    ensures Polynomial() == Castagnoli()
  {
    var p := Castagnoli();
    CastagnoliHigh(p);
    CastagnoliLow(p);
    assert p[0..] == p;
    BitsOfValue(p);
  }

  /** One step of the division: shift right, subtract the polynomial on carry. */
  function BitStep(p: word, x: word): word {
    if x[0] then Xor(Shift(x), p) else Shift(x)
  }

  /** k steps of the division. */
  function Steps(p: word, x: word, k: nat): word
    decreases k + 0  // as for BitsOf
  {
    if k == 0 then x else Steps(p, BitStep(p, x), k - 1)
  }

  /** The step is linear over exclusive or. */
  lemma BitStepLinear(p: word, x: word, y: word)
    ensures BitStep(p, Xor(x, y)) == Xor(BitStep(p, x), BitStep(p, y))
  {
    var l, r := BitStep(p, Xor(x, y)), Xor(BitStep(p, x), BitStep(p, y));
    forall i | 0 <= i < 32
      ensures l[i] == r[i]
    {
    }
  }

  lemma BitStepAt(p: word, x: word, i: nat)
    requires i < 32
    ensures BitStep(p, x)[i] == ((i < 31 && x[i + 1]) != (x[0] && p[i]))
  {
  }

  lemma BitStepInjective(p: word, x: word, y: word)
    requires p[31] && BitStep(p, x) == BitStep(p, y)
    ensures x == y
  {
    BitStepAt(p, x, 31);
    BitStepAt(p, y, 31);
    forall i | 0 <= i < 32
      ensures x[i] == y[i]
    {
      if i > 0 {
        BitStepAt(p, x, i - 1);
        BitStepAt(p, y, i - 1);
      }
    }
  }

  lemma {:induction false} StepsLinear(p: word, x: word, y: word, k: nat)
    ensures Steps(p, Xor(x, y), k) == Xor(Steps(p, x, k), Steps(p, y, k))
    decreases k
  {
    if k > 0 {
      BitStepLinear(p, x, y);
      StepsLinear(p, BitStep(p, x), BitStep(p, y), k - 1);
    }
  }

  lemma {:induction false} StepsInjective(p: word, x: word, y: word, k: nat)
    requires p[31] && Steps(p, x, k) == Steps(p, y, k)
    ensures x == y
    decreases k
  {
    if k > 0 {
      StepsInjective(p, BitStep(p, x), BitStep(p, y), k - 1);
      BitStepInjective(p, x, y);
    }
  }

  lemma ShiftMoves(x: word)
    ensures forall i :: 0 <= i < 31 ==> Shift(x)[i] == x[i + 1]
  {
  }

  lemma DropShifted(x: word, k: nat)
    requires 0 < k <= 32
    ensures Shift(x)[k - 1..] == x[k..] + [false]
  {
    assert x[1..][k - 1..] == x[k..];
  }

  /** Low zero bits are shifted out without touching the rest. */
  lemma {:induction false} StepsShift(p: word, x: word, k: nat)
    requires k <= 32 && forall i :: 0 <= i < k ==> !x[i]
    ensures Steps(p, x, k) == x[k..] + Zeros(k)
    decreases k
  {
    if k > 0 {
      var y := Shift(x);
      assert BitStep(p, x) == y;
      ShiftMoves(x);
      StepsShift(p, y, k - 1);
      DropShifted(x, k);
      assert [false] + Zeros(k - 1) == Zeros(k);
      assert x[k..] + [false] + Zeros(k - 1) == x[k..] + ([false] + Zeros(k - 1));
    }
  }

  // -------------------------------------------------- bit serial reference

  function Only(b: bool): word { [b] + Zeros(31) }

  /** Divides a message bit by bit, least significant bit of each byte first. */
  function Divide(p: word, crc: word, message: seq<bool>): word
    decreases message
  {
    if message == [] then crc else Divide(p, BitStep(p, Xor(crc, Only(message[0]))), message[1..])
  }

  function MessageBits(data: bytes): seq<bool> {
    if data == [] then [] else BitsOf(data[0], 8) + MessageBits(data[1..])
  }

  lemma {:induction false} DivideConcat(p: word, crc: word, a: seq<bool>, b: seq<bool>)
    ensures Divide(p, crc, a + b) == Divide(p, Divide(p, crc, a), b)
    decreases a
  {
    if a == [] {
      assert a + b == b;
    } else {
      assert (a + b)[1..] == a[1..] + b;
      DivideConcat(p, BitStep(p, Xor(crc, Only(a[0]))), a[1..], b);
    }
  }

  function Padded(bits: seq<bool>): word
    requires |bits| <= 32
  {
    bits + Zeros(32 - |bits|)
  }

  lemma XorSplit(crc: word, bits: seq<bool>)
    requires 0 < |bits| <= 32
    ensures Xor(crc, Padded(bits)) == Xor(Xor(crc, Only(bits[0])), Padded([false] + bits[1..]))
  {
    var l, r := Xor(crc, Padded(bits)), Xor(Xor(crc, Only(bits[0])), Padded([false] + bits[1..]));
    forall i | 0 <= i < 32
      ensures l[i] == r[i]
    {
      assert l[i] == (crc[i] != Padded(bits)[i]);
    }
  }

  lemma BitStepFeeds(p: word, crc: word, bits: seq<bool>)
    requires 0 < |bits| <= 32
    ensures BitStep(p, Xor(crc, Padded(bits))) == Xor(BitStep(p, Xor(crc, Only(bits[0]))), Padded(bits[1..]))
  {
    var rest := Padded([false] + bits[1..]);
    XorSplit(crc, bits);
    BitStepLinear(p, Xor(crc, Only(bits[0])), rest);
    assert BitStep(p, rest) == Shift(rest);
    assert Shift(rest) == Padded(bits[1..]);
  }

  /** Feeding bits one at a time or all at once before the steps is the same. */
  lemma {:induction false} DivideAtOnce(p: word, crc: word, bits: seq<bool>)
    requires |bits| <= 32
    ensures Divide(p, crc, bits) == Steps(p, Xor(crc, Padded(bits)), |bits|)
    decreases bits
  {
    if bits == [] {
      assert Xor(crc, Padded(bits)) == crc;
    } else {
      BitStepFeeds(p, crc, bits);
      DivideAtOnce(p, BitStep(p, Xor(crc, Only(bits[0]))), bits[1..]);
    }
  }

  // ------------------------------------------------------------- the checksum

  /** A byte widened to a register. */
  function Word(n: byte): word { Padded(BitsOf(n, 8)) }

  /** The register after a message, one byte at a time. */
  function Register(p: word, crc: word, data: bytes): word
    decreases data
  {
    if data == [] then crc else Register(p, Steps(p, Xor(crc, Word(data[0])), 8), data[1..])
  }

  /** The checksum of a message continued from the checksum of what precedes it. */
  function Crc(p: word, data: bytes, seed: word): word {
    Not(Register(p, Not(seed), data))
  }

  /** The checksum of a whole message as the 32 bit number that is stored. */
  function Checksum(p: word, data: bytes): (n: nat)
    ensures n < U32
  {
    Pow2Values();
    ValueBound(Crc(p, data, Zeros(32)));
    ValueOf(Crc(p, data, Zeros(32)))
  }

  /** The byte wise register is the bit serial remainder, for every input and seed. */
  lemma {:induction false} RegisterIsDivision(p: word, crc: word, data: bytes)
    ensures Register(p, crc, data) == Divide(p, crc, MessageBits(data))
    decreases data
  {
    if data != [] {
      DivideAtOnce(p, crc, BitsOf(data[0], 8));
      DivideConcat(p, crc, BitsOf(data[0], 8), MessageBits(data[1..]));
      RegisterIsDivision(p, Steps(p, Xor(crc, Word(data[0])), 8), data[1..]);
    }
  }

  lemma {:induction false} RegisterConcat(p: word, crc: word, a: bytes, b: bytes)
    ensures Register(p, crc, a + b) == Register(p, Register(p, crc, a), b)
    decreases a
  {
    if a == [] {
      assert a + b == b;
    } else {
      assert (a + b)[1..] == a[1..] + b;
      RegisterConcat(p, Steps(p, Xor(crc, Word(a[0])), 8), a[1..], b);
    }
  }

  /** Checksums compose: the checksum of the first part seeds the second. */
  lemma CrcConcat(p: word, a: bytes, b: bytes, seed: word)
    ensures Crc(p, a + b, seed) == Crc(p, b, Crc(p, a, seed))
  {
    RegisterConcat(p, Not(seed), a, b);
    assert Not(Not(Register(p, Not(seed), a))) == Register(p, Not(seed), a);
  }

  // --------------------------------------------------------- table driven form

  /** The table index of a register: its low byte. */
  function Low(x: word): byte {
    ValueBound(x[..8]);
    Pow2Values();
    ValueOf(x[..8])
  }

  function Shift8(x: word): word { x[8..] + Zeros(8) }

  lemma SplitLowByte(y: word)
    ensures y == Xor(Padded(y[..8]), Zeros(8) + y[8..])
  {
    var w := Xor(Padded(y[..8]), Zeros(8) + y[8..]);
    forall i | 0 <= i < 32
      ensures w[i] == y[i]
    {
    }
  }

  lemma HighPart(p: word, crc: word, n: byte)
    ensures Steps(p, Zeros(8) + Xor(crc, Word(n))[8..], 8) == Shift8(crc)
  {
    var high: word := Zeros(8) + Xor(crc, Word(n))[8..];
    assert forall i :: 8 <= i < 32 ==> high[i] == crc[i];
    StepsShift(p, high, 8);
    assert high[8..] == crc[8..];
  }

  /** One table lookup does the work of eight division steps. */
  lemma TableStep(p: word, crc: word, n: byte)
    ensures Steps(p, Xor(crc, Word(n)), 8) == Xor(Steps(p, Word(Low(Xor(crc, Word(n)))), 8), Shift8(crc))
  {
    var y := Xor(crc, Word(n));
    SplitLowByte(y);
    StepsLinear(p, Padded(y[..8]), Zeros(8) + y[8..], 8);
    BitsOfValue(y[..8]);
    assert Word(Low(y)) == Padded(y[..8]);
    HighPart(p, crc, n);
  }

  method TableEntry(p: word, index: byte) returns (value: word)
    ensures value == Steps(p, Word(index), 8)
  {
    value := Word(index);
    var bit := 0;
    while bit < 8
      invariant 0 <= bit <= 8
      invariant Steps(p, value, 8 - bit) == Steps(p, Word(index), 8)
    {
      assert Steps(p, value, 8 - bit) == Steps(p, BitStep(p, value), 8 - (bit + 1));
      value := if value[0] then Xor(Shift(value), p) else Shift(value);
      bit := bit + 1;
    }
  }

  /** Fills the lookup table, one entry per byte value. */
  method BuildTable(p: word) returns (table: seq<word>)
    ensures |table| == 256 && forall i: byte :: table[i] == Steps(p, Word(i), 8)
  {
    table := [];
    var index := 0;
    while index < 256
      invariant 0 <= index <= 256 && |table| == index
      invariant forall i: byte :: i < index ==> table[i] == Steps(p, Word(i), 8)
    {
      var value := TableEntry(p, index);
      var longer := table + [value];
      forall i: byte | i < index + 1
        ensures longer[i] == Steps(p, Word(i), 8)
      {
      }
      table, index := longer, index + 1;
    }
  }

  /** The checksum loop of the source: it computes exactly the bit serial remainder. */
  method ComputeCrc(p: word, data: bytes, seed: word) returns (crc: word)
    ensures crc == Crc(p, data, seed)
    ensures crc == Not(Divide(p, Not(seed), MessageBits(data)))
  {
    var table := BuildTable(p);
    var register: word := Not(seed);
    var index := 0;
    while index < |data|
      invariant 0 <= index <= |data|
      invariant Register(p, register, data[index..]) == Register(p, Not(seed), data)
    {
      register := LookUp(p, table, register, data, index);
      index := index + 1;
    }
    assert data[index..] == [];
    RegisterIsDivision(p, Not(seed), data);
    crc := Not(register);
  }

  method LookUp(p: word, table: seq<word>, register: word, data: bytes, index: nat) returns (next: word)
    requires index < |data|
    requires |table| == 256 && forall i: byte :: table[i] == Steps(p, Word(i), 8)
    ensures Register(p, next, data[index + 1..]) == Register(p, register, data[index..])
  {
    TableStep(p, register, data[index]);
    var rest := data[index..];
    assert rest[0] == data[index] && rest[1..] == data[index + 1..];
    next := Xor(table[Low(Xor(register, Word(data[index])))], Shift8(register));
  }

  // ------------------------------------------------------------ error detection

  lemma XorCancel(a: word, b: word, w: word)
    requires Xor(a, w) == Xor(b, w)
    ensures a == b
  {
    forall i | 0 <= i < 32
      ensures a[i] == b[i]
    {
      assert Xor(a, w)[i] == Xor(b, w)[i];
    }
  }

  /** Different registers stay different over a common continuation. */
  lemma {:induction false} RegisterInjective(p: word, x: word, y: word, data: bytes)
    requires p[31] && Register(p, x, data) == Register(p, y, data)
    ensures x == y
    decreases data
  {
    if data != [] {
      var w := Word(data[0]);
      RegisterInjective(p, Steps(p, Xor(x, w), 8), Steps(p, Xor(y, w), 8), data[1..]);
      StepsInjective(p, Xor(x, w), Xor(y, w), 8);
      XorCancel(x, y, w);
    }
  }

  lemma {:induction false} MessageBitsSize(data: bytes)
    ensures |MessageBits(data)| == 8 * |data|
  {
    if data != [] {
      MessageBitsSize(data[1..]);
    }
  }

  lemma ByteBitsInjective(m: byte, n: byte)
    requires BitsOf(m, 8) == BitsOf(n, 8)
    ensures m == n
  {
    Pow2Values();
    ValueOfBits(m, 8);
    ValueOfBits(n, 8);
  }

  lemma MessageBitsSplit(data: bytes)
    requires data != []
    ensures |MessageBits(data)| >= 8
    ensures MessageBits(data)[..8] == BitsOf(data[0], 8) && MessageBits(data)[8..] == MessageBits(data[1..])
  {
  }

  lemma {:induction false} MessageBitsInjective(x: bytes, y: bytes)
    requires |x| == |y| && MessageBits(x) == MessageBits(y)
    ensures x == y
  {
    if x != [] {
      MessageBitsSplit(x);
      MessageBitsSplit(y);
      ByteBitsInjective(x[0], y[0]);
      MessageBitsInjective(x[1..], y[1..]);
      assert x == [x[0]] + x[1..] && y == [y[0]] + y[1..];
    }
  }

  /** Up to four bytes can be told apart from the register they leave behind. */
  lemma ShortRegisterInjective(p: word, crc: word, x: bytes, y: bytes)
    requires p[31] && |x| == |y| <= 4 && Register(p, crc, x) == Register(p, crc, y)
    ensures x == y
  {
    RegisterIsDivision(p, crc, x);
    RegisterIsDivision(p, crc, y);
    MessageBitsSize(x);
    MessageBitsSize(y);
    var a, b := MessageBits(x), MessageBits(y);
    DivideAtOnce(p, crc, a);
    DivideAtOnce(p, crc, b);
    StepsInjective(p, Xor(crc, Padded(a)), Xor(crc, Padded(b)), |a|);
    forall i | 0 <= i < |a|
      ensures a[i] == b[i]
    {
      assert Xor(crc, Padded(a))[i] == (crc[i] != a[i]);
      assert Xor(crc, Padded(b))[i] == (crc[i] != b[i]);
    }
    MessageBitsInjective(x, y);
  }

  lemma CrcBurst(p: word, before: bytes, x: bytes, y: bytes, after: bytes, seed: word)
    requires p[31] && |x| == |y| <= 4
    requires Crc(p, before + x + after, seed) == Crc(p, before + y + after, seed)
    ensures x == y
  {
    var start := Not(seed);
    var a, b := before + x + after, before + y + after;
    assert Not(Not(Register(p, start, a))) == Register(p, start, a);
    assert Not(Not(Register(p, start, b))) == Register(p, start, b);
    RegisterConcat(p, start, before + x, after);
    RegisterConcat(p, start, before + y, after);
    RegisterInjective(p, Register(p, start, before + x), Register(p, start, before + y), after);
    RegisterConcat(p, start, before, x);
    RegisterConcat(p, start, before, y);
    ShortRegisterInjective(p, Register(p, start, before), x, y);
  }

  lemma ValueInjective(a: seq<bool>, b: seq<bool>)
    requires |a| == |b| && ValueOf(a) == ValueOf(b)
    ensures a == b
  {
    BitsOfValue(a);
    BitsOfValue(b);
  }

  /** Any change confined to four adjacent bytes changes the checksum. */
  lemma BurstDetected(p: word, before: bytes, x: bytes, y: bytes, after: bytes)
    requires p[31] && |x| == |y| <= 4 && x != y
    ensures Checksum(p, before + x + after) != Checksum(p, before + y + after)
  {
    var zero := Zeros(32);
    if Checksum(p, before + x + after) == Checksum(p, before + y + after) {
      ValueInjective(Crc(p, before + x + after, zero), Crc(p, before + y + after, zero));
      CrcBurst(p, before, x, y, after, zero);
    }
  }

  /** With the polynomial in use. */
  lemma CastagnoliBurst(before: bytes, x: bytes, y: bytes, after: bytes)
    requires |x| == |y| <= 4 && x != y
    ensures Checksum(Polynomial(), before + x + after) != Checksum(Polynomial(), before + y + after)
  {
    BurstDetected(Polynomial(), before, x, y, after);
  }
}
