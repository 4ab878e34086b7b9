/** The CRC-32 of `scripts/final-submission-gate.ts`, its agreement with the table form of
    section 8 of RFC 1952, and the errors it is guaranteed to detect.

    Bit-vector facts are proved in small lemmas of their own; the inductive lemmas hide the
    bit-vector definitions and work from those facts alone. */
module Crc {

  const POLYNOMIAL: bv32 := 0xedb88320
  const ALL_ONES: bv32 := 0xffff_ffff

  function Xor(x: bv32, y: bv32): bv32 {
    x ^ y
  }

  function Double(x: bv32): bv32 {
    x << 1
  }

  function Half(x: bv32): bv32 {
    x >> 1
  }

  function Feedback(x: bv32): bv32 {
    if x & 1 == 1 then POLYNOMIAL else 0
  }

  /** One turn of the inner loop: shift right, and fold the polynomial in when a one leaves. */
  function BitStep(crc: bv32): bv32 {
    Xor(Half(crc), Feedback(crc))
  }

  function Shift(crc: bv32, n: nat): bv32
    decreases n
  {
    if n == 0 then crc else Shift(BitStep(crc), n - 1)
  }

  function ByteStep(crc: bv32, byte: bv8): bv32 {
    Shift(Xor(crc, byte as bv32), 8)
  }

  function Register(crc: bv32, payload: seq<bv8>): bv32
    decreases payload
  {
    if payload == [] then crc else Register(ByteStep(crc, payload[0]), payload[1..])
  }

  function Checksum(payload: seq<bv8>): bv32 {
    Xor(Register(ALL_ONES, payload), ALL_ONES)
  }

  /** The two nested loops of the source. */
  method Crc32(value: seq<bv8>) returns (result: bv32)
    ensures result == Checksum(value)
  {
    var crc := ALL_ONES;
    for i := 0 to |value|
      invariant Register(crc, value[i..]) == Register(ALL_ONES, value)
    {
      assert value[i..][1..] == value[i + 1..];
      crc := FoldByte(crc, value[i]);
    }
    result := Xor(crc, ALL_ONES);
  }

  /** The body of the outer loop. */
  method FoldByte(crc: bv32, byte: bv8) returns (r: bv32)
    ensures r == ByteStep(crc, byte)
  {
    hide BitStep, Xor;
    r := Xor(crc, byte as bv32);
    ghost var folded := r;
    for bit := 0 to 8
      invariant Shift(r, 8 - bit) == Shift(folded, 8)
    {
      r := BitStep(r);
    }
  }

  // ---- facts about single words ----

  lemma HalfLinear(x: bv32, y: bv32)
    ensures Half(Xor(x, y)) == Xor(Half(x), Half(y))
  {
  }

  lemma LowBit(x: bv32, y: bv32)
    ensures x & 1 == 0 || x & 1 == 1
    ensures Xor(x, y) & 1 == (x & 1) ^ (y & 1)
  {
  }

  lemma FeedbackLinear(x: bv32, y: bv32)
    ensures Feedback(Xor(x, y)) == Xor(Feedback(x), Feedback(y))
  {
    LowBit(x, y);
    LowBit(y, x);
    hide Half;
  }

  lemma XorExchange(a: bv32, b: bv32, c: bv32, d: bv32)
    ensures Xor(Xor(a, b), Xor(c, d)) == Xor(Xor(a, c), Xor(b, d))
  {
    hide Xor;
    XorAssociates(a, b, Xor(c, d));
    XorAssociates(b, c, d);
    XorCommutes(b, c);
    XorAssociates(c, b, d);
    XorAssociates(a, c, Xor(b, d));
  }

  lemma BitStepLinear(x: bv32, y: bv32)
    ensures BitStep(Xor(x, y)) == Xor(BitStep(x), BitStep(y))
  {
    hide Xor, Half, Feedback;
    HalfLinear(x, y);
    FeedbackLinear(x, y);
    XorExchange(Half(x), Half(y), Feedback(x), Feedback(y));
  }

  lemma BitStepInjective(x: bv32, y: bv32)
    requires BitStep(x) == BitStep(y)
    ensures x == y
  {
  }

  lemma XorAssociates(x: bv32, y: bv32, z: bv32)
    ensures Xor(x, Xor(y, z)) == Xor(Xor(x, y), z)
  {
  }

  lemma XorCommutes(x: bv32, y: bv32)
    ensures Xor(x, y) == Xor(y, x)
  {
  }

  lemma XorCancels(x: bv32, y: bv32, z: bv32)
    requires Xor(x, z) == Xor(y, z) || Xor(z, x) == Xor(z, y)
    ensures x == y
  {
  }

  lemma XorZero(x: bv32)
    ensures Xor(x, 0) == x
  {
  }

  // ---- iterated steps ----

  lemma {:induction false} ShiftInjective(x: bv32, y: bv32, n: nat)
    requires Shift(x, n) == Shift(y, n)
    ensures x == y
    decreases n
  {
    hide BitStep;
    if n != 0 {
      ShiftInjective(BitStep(x), BitStep(y), n - 1);
      BitStepInjective(x, y);
    }
  }

  lemma {:induction false} ShiftLinear(x: bv32, y: bv32, n: nat)
    ensures Shift(Xor(x, y), n) == Xor(Shift(x, n), Shift(y, n))
    decreases n
  {
    hide BitStep, Xor;
    if n != 0 {
      BitStepLinear(x, y);
      ShiftLinear(BitStep(x), BitStep(y), n - 1);
    }
  }

  // ---- agreement with the table form of RFC 1952 ----

  /** Entry `index` of the table of section 8 of RFC 1952. */
  function TableEntry(index: bv32): bv32 {
    Shift(index, 8)
  }

  function LowByte(x: bv32): bv32 {
    x & 0xff
  }

  function DropByte(x: bv32): bv32 {
    x >> 8
  }

  function Halved(x: bv32, n: nat): bv32
    decreases n
  {
    if n == 0 then x else Halved(Half(x), n - 1)
  }

  predicate Disjoint(x: bv32, mask: bv32) {
    x & mask == 0
  }

  lemma DisjointStep(x: bv32, half: bv32)
    requires Disjoint(x, Xor(1, Double(half)))
    ensures BitStep(x) == Half(x) && Disjoint(Half(x), half)
  {
    assert x & 1 == 0;
    assert (x >> 1) ^ 0 == x >> 1;
  }

  lemma {:induction false} ShiftOfZeros(x: bv32, n: nat)
    requires Disjoint(x, Mask(n))
    ensures Shift(x, n) == Halved(x, n)
    decreases n
  {
    hide BitStep, Xor, Double, Half, Disjoint;
    if n != 0 {
      DisjointStep(x, Mask(n - 1));
      ShiftOfZeros(Half(x), n - 1);
    }
  }

  lemma ByteMask()
    ensures Mask(8) == 0xff
  {
    assert Mask(2) == 3;
    assert Mask(4) == 15;
    assert Mask(6) == 63;
  }

  lemma HalvedByByte(x: bv32)
    ensures Halved(x, 8) == DropByte(x)
  {
  }

  lemma SplitWord(crc: bv32, byte: bv8, c: bv32)
    requires c == Xor(crc, byte as bv32)
    ensures c == Xor(LowByte(c), c & 0xffff_ff00)
    ensures Disjoint(c & 0xffff_ff00, 0xff)
    ensures DropByte(c & 0xffff_ff00) == DropByte(crc)
  {
  }

  lemma HighPartShift(high: bv32)
    requires Disjoint(high, 0xff)
    ensures Shift(high, 8) == DropByte(high)
  {
    hide Shift, Halved, Mask, DropByte, Disjoint;
    ByteMask();
    ShiftOfZeros(high, 8);
    HalvedByByte(high);
  }

  /** Eight bit steps are one table lookup: crc_table[(c ^ b) & 0xff] ^ (c >> 8). */
  lemma TableForm(crc: bv32, byte: bv8)
    ensures ByteStep(crc, byte)
         == Xor(TableEntry(LowByte(Xor(crc, byte as bv32))), DropByte(crc))
  {
    hide Shift, Xor, LowByte, DropByte, Disjoint;
    var c := Xor(crc, byte as bv32);
    var high := c & 0xffff_ff00;
    SplitWord(crc, byte, c);
    ShiftLinear(LowByte(c), high, 8);
    HighPartShift(high);
  }

  // ---- the register as a function of the bit stream, least significant bit first ----

  function Bit(on: bool): bv32 {
    if on then 1 else 0
  }

  function Serial(crc: bv32, bits: seq<bool>): bv32
    decreases bits
  {
    if bits == [] then crc else Serial(BitStep(Xor(crc, Bit(bits[0]))), bits[1..])
  }

  /** Up to 32 bits as one little-endian word. */
  function Word(bits: seq<bool>): bv32 {
    if bits == [] then 0 else Xor(Bit(bits[0]), Double(Word(bits[1..])))
  }

  /** The largest word of `n` bits. */
  function Mask(n: nat): bv32 {
    if n == 0 then 0 else Xor(1, Double(Mask(n - 1)))
  }

  predicate Within(x: bv32, mask: bv32) {
    x & mask == x
  }

  lemma WithinOdd(x: bv32, mask: bv32)
    requires Within(x, mask)
    ensures Within(Xor(1, Double(x)), Xor(1, Double(mask)))
  {
  }

  lemma WithinEven(x: bv32, mask: bv32)
    requires Within(x, mask)
    ensures Within(Xor(0, Double(x)), Xor(1, Double(mask)))
  {
  }

  lemma WithinStep(on: bool, x: bv32, mask: bv32)
    requires Within(x, mask)
    ensures Within(Xor(Bit(on), Double(x)), Xor(1, Double(mask)))
  {
    if on {
      WithinOdd(x, mask);
    } else {
      WithinEven(x, mask);
    }
    hide Within, Xor, Double;
  }

  lemma ZeroWithin(mask: bv32)
    ensures Within(0, mask)
  {
  }

  lemma {:induction false} WordWithinMask(bits: seq<bool>)
    ensures Within(Word(bits), Mask(|bits|))
  {
    ZeroWithin(Mask(|bits|));
    if bits != [] {
      WordWithinMask(bits[1..]);
      WithinStep(bits[0], Word(bits[1..]), Mask(|bits| - 1));
    }
    hide Xor, Double, Bit, Within;
  }

  lemma {:induction false} MaskMonotone(m: nat, n: nat)
    requires m <= n
    ensures Within(Mask(m), Mask(n))
  {
    ZeroWithin(Mask(n));
    if m != 0 {
      MaskMonotone(m - 1, n - 1);
      WithinStep(true, Mask(m - 1), Mask(n - 1));
      assert Bit(true) == 1;
    }
    hide Xor, Double, Within;
  }

  predicate TopBitClear(x: bv32) {
    x & 0x8000_0000 == 0
  }

  lemma WithinTopBitClear(x: bv32, y: bv32)
    requires Within(x, y) && Within(y, 0x7fff_ffff)
    ensures TopBitClear(x)
  {
  }

  lemma LongMask()
    ensures Mask(31) == 0x7fff_ffff
  {
    assert Mask(4) == 0xf;
    assert Mask(8) == 0xff;
    assert Mask(12) == 0xfff;
    assert Mask(16) == 0xffff;
    assert Mask(20) == 0xf_ffff;
    assert Mask(24) == 0xff_ffff;
    assert Mask(28) == 0xfff_ffff;
  }

  lemma WordTopBitClear(bits: seq<bool>)
    requires |bits| <= 31
    ensures TopBitClear(Word(bits))
  {
    hide TopBitClear, Within, Mask, Word;
    WordWithinMask(bits);
    MaskMonotone(|bits|, 31);
    LongMask();
    WithinTopBitClear(Word(bits), Mask(|bits|));
  }

  lemma DoubleAndHalve(b: bool, w: bv32)
    requires TopBitClear(w)
    ensures Xor(Bit(b), Double(w)) & 1 == Bit(b)
    ensures Half(Xor(Bit(b), Double(w))) == w
  {
  }

  lemma DoubledStep(w: bv32)
    requires TopBitClear(w)
    ensures BitStep(Double(w)) == w
  {
    DoubleAndHalve(false, w);
    XorZero(w);
    XorZero(Double(w));
    XorCommutes(Double(w), 0);
    hide Xor, Half, Double, TopBitClear;
  }

  /** Feeding at most 32 bits one by one is folding them in as one word and then shifting. */
  lemma {:induction false} SerialIsWordShift(crc: bv32, bits: seq<bool>)
    requires |bits| <= 32
    ensures Serial(crc, bits) == Shift(Xor(crc, Word(bits)), |bits|)
    decreases bits
  {
    hide BitStep, Xor, Double, Bit, TopBitClear;
    XorZero(crc);
    if bits != [] {
      var b, w := Bit(bits[0]), Word(bits[1..]);
      SerialIsWordShift(BitStep(Xor(crc, b)), bits[1..]);
      WordTopBitClear(bits[1..]);
      DoubledStep(w);
      BitStepLinear(Xor(crc, b), Double(w));
      XorAssociates(crc, b, Double(w));
    }
  }

  lemma WordHeadAndTail(b: bool, c: bool, v: bv32, w: bv32)
    requires Xor(Bit(b), Double(v)) == Xor(Bit(c), Double(w))
    requires TopBitClear(v) && TopBitClear(w)
    ensures b == c && v == w
  {
    DoubleAndHalve(b, v);
    DoubleAndHalve(c, w);
  }

  lemma {:induction false} WordInjective(x: seq<bool>, y: seq<bool>)
    requires |x| == |y| <= 32
    requires Word(x) == Word(y)
    ensures x == y
  {
    hide Xor, Double, Bit, TopBitClear;
    if x != [] {
      WordTopBitClear(x[1..]);
      WordTopBitClear(y[1..]);
      WordHeadAndTail(x[0], y[0], Word(x[1..]), Word(y[1..]));
      WordInjective(x[1..], y[1..]);
      assert x == [x[0]] + x[1..] && y == [y[0]] + y[1..];
    }
  }

  lemma {:induction false} SerialOfConcat(crc: bv32, x: seq<bool>, y: seq<bool>)
    ensures Serial(crc, x + y) == Serial(Serial(crc, x), y)
    decreases x
  {
    hide BitStep, Xor, Bit;
    if x == [] {
      assert x + y == y;
    } else {
      assert (x + y)[1..] == x[1..] + y;
      SerialOfConcat(BitStep(Xor(crc, Bit(x[0]))), x[1..], y);
    }
  }

  lemma {:induction false} SerialInjectiveInRegister(c: bv32, d: bv32, bits: seq<bool>)
    requires Serial(c, bits) == Serial(d, bits)
    ensures c == d
    decreases bits
  {
    hide BitStep, Xor, Bit;
    if bits != [] {
      var b := Bit(bits[0]);
      SerialInjectiveInRegister(BitStep(Xor(c, b)), BitStep(Xor(d, b)), bits[1..]);
      BitStepInjective(Xor(c, b), Xor(d, b));
      XorCancels(c, d, b);
    }
  }

  // ---- bytes as bits ----

  function ByteBits(byte: bv8): (bits: seq<bool>)
    ensures |bits| == 8
  {
    [byte & 1 == 1, byte & 2 == 2, byte & 4 == 4, byte & 8 == 8,
     byte & 16 == 16, byte & 32 == 32, byte & 64 == 64, byte & 128 == 128]
  }

  function Bits(payload: seq<bv8>): (bits: seq<bool>)
    ensures |bits| == 8 * |payload|
  {
    if payload == [] then [] else ByteBits(payload[0]) + Bits(payload[1..])
  }

  lemma WordOfEight(b: seq<bool>)
    requires |b| == 8
    ensures Word(b) == Xor(Bit(b[0]), Double(Xor(Bit(b[1]), Double(Xor(Bit(b[2]), Double(
                       Xor(Bit(b[3]), Double(Xor(Bit(b[4]), Double(Xor(Bit(b[5]), Double(
                       Xor(Bit(b[6]), Double(Xor(Bit(b[7]), Double(0))))))))))))))))
  {
    hide Xor, Double, Bit;
    var b1 := b[1..];
    var b2 := b1[1..];
    var b3 := b2[1..];
    var b4 := b3[1..];
    var b5 := b4[1..];
    var b6 := b5[1..];
    var b7 := b6[1..];
    assert b7[1..] == [] && Word(b7) == Xor(Bit(b[7]), Double(0));
    assert Word(b6) == Xor(Bit(b[6]), Double(Xor(Bit(b[7]), Double(0))));
    assert Word(b4) == Xor(Bit(b[4]), Double(Xor(Bit(b[5]), Double(Word(b6)))));
    assert Word(b2) == Xor(Bit(b[2]), Double(Xor(Bit(b[3]), Double(Word(b4)))));
  }

  lemma WordOfByteBits(byte: bv8)
    ensures Word(ByteBits(byte)) == byte as bv32
  {
    hide Word;
    WordOfEight(ByteBits(byte));
  }

  lemma ByteBitsInjective(x: bv8, y: bv8)
    requires ByteBits(x) == ByteBits(y)
    ensures x == y
  {
    hide Word, ByteBits;
    WordOfByteBits(x);
    WordOfByteBits(y);
  }

  lemma {:induction false} BitsInjective(x: seq<bv8>, y: seq<bv8>)
    requires Bits(x) == Bits(y)
    ensures x == y
  {
    hide ByteBits;
    if x != [] {
      assert |x| == |y|;
      assert Bits(x)[..8] == ByteBits(x[0]) && Bits(y)[..8] == ByteBits(y[0]);
      assert Bits(x)[8..] == Bits(x[1..]) && Bits(y)[8..] == Bits(y[1..]);
      ByteBitsInjective(x[0], y[0]);
      BitsInjective(x[1..], y[1..]);
      assert x == [x[0]] + x[1..] && y == [y[0]] + y[1..];
    }
  }

  lemma {:induction false} BitAt(payload: seq<bv8>, k: nat)
    requires k < 8 * |payload|
    ensures Bits(payload)[k] == ByteBits(payload[k / 8])[k % 8]
  {
    hide ByteBits;
    if 8 <= k {
      BitAt(payload[1..], k - 8);
      assert (k - 8) / 8 == k / 8 - 1 && (k - 8) % 8 == k % 8;
    }
  }

  lemma {:induction false} RegisterIsSerial(crc: bv32, payload: seq<bv8>)
    ensures Register(crc, payload) == Serial(crc, Bits(payload))
    decreases payload
  {
    hide BitStep, Xor, Word, Shift, ByteBits;
    if payload != [] {
      var bits := ByteBits(payload[0]);
      WordOfByteBits(payload[0]);
      SerialIsWordShift(crc, bits);
      RegisterIsSerial(ByteStep(crc, payload[0]), payload[1..]);
      SerialOfConcat(crc, bits, Bits(payload[1..]));
    }
  }

  // ---- burst detection ----

  /** Registers that start alike and read two different runs of at most 32 bits end apart. */
  lemma ShortRunsSeparate(crc: bv32, x: seq<bool>, y: seq<bool>)
    requires |x| == |y| <= 32 && x != y
    ensures Serial(crc, x) != Serial(crc, y)
  {
    hide Serial, Shift, Word, Xor;
    SerialIsWordShift(crc, x);
    SerialIsWordShift(crc, y);
    if Serial(crc, x) == Serial(crc, y) {
      ShiftInjective(Xor(crc, Word(x)), Xor(crc, Word(y)), |x|);
      XorCancels(Word(x), Word(y), crc);
      WordInjective(x, y);
    }
  }

  lemma SerialSeparatesBursts(crc: bv32, x: seq<bool>, y: seq<bool>, start: nat)
    requires |x| == |y| && x != y
    requires forall k :: 0 <= k < |x| && !(start <= k < start + 32) ==> x[k] == y[k]
    ensures Serial(crc, x) != Serial(crc, y)
  {
    hide Serial;
    var lo := if start < |x| then start else |x|;
    var hi := if start + 32 < |x| then start + 32 else |x|;
    assert x[..lo] == y[..lo] && x[hi..] == y[hi..];
    var midX, midY := x[lo..hi], y[lo..hi];
    assert x == x[..lo] + (midX + x[hi..]) && y == y[..lo] + (midY + y[hi..]);
    var before := Serial(crc, x[..lo]);
    SerialOfConcat(crc, x[..lo], midX + x[hi..]);
    SerialOfConcat(crc, y[..lo], midY + y[hi..]);
    SerialOfConcat(before, midX, x[hi..]);
    SerialOfConcat(before, midY, y[hi..]);
    ShortRunsSeparate(before, midX, midY);
    if Serial(crc, x) == Serial(crc, y) {
      SerialInjectiveInRegister(Serial(before, midX), Serial(before, midY), x[hi..]);
    }
  }

  /** Any error confined to 32 consecutive bits, wherever it starts, changes the checksum. */
  lemma BurstOf32BitsDetected(a: seq<bv8>, b: seq<bv8>, start: nat)
    requires |a| == |b| && a != b
    requires forall k :: 0 <= k < 8 * |a| && !(start <= k < start + 32) ==> Bits(a)[k] == Bits(b)[k]
    ensures Checksum(a) != Checksum(b)
  {
    hide Serial, Register, Bits, Xor;
    if Bits(a) == Bits(b) {
      BitsInjective(a, b);
    }
    SerialSeparatesBursts(ALL_ONES, Bits(a), Bits(b), start);
    RegisterIsSerial(ALL_ONES, a);
    RegisterIsSerial(ALL_ONES, b);
    if Checksum(a) == Checksum(b) {
      XorCancels(Register(ALL_ONES, a), Register(ALL_ONES, b), ALL_ONES);
    }
  }

  /** Two payloads that differ only within four consecutive bytes have different checksums. */
  lemma BurstOfFourBytesDetected(a: seq<bv8>, b: seq<bv8>, start: nat)
    requires |a| == |b| && a != b
    requires forall i :: 0 <= i < |a| && !(start <= i < start + 4) ==> a[i] == b[i]
    ensures Checksum(a) != Checksum(b)
  {
    hide Checksum, ByteBits, Bits;
    forall k | 0 <= k < 8 * |a| && !(8 * start <= k < 8 * start + 32)
      ensures Bits(a)[k] == Bits(b)[k]
    {
      BitAt(a, k);
      BitAt(b, k);
      assert !(start <= k / 8 < start + 4);
    }
    BurstOf32BitsDetected(a, b, 8 * start);
  }

  // ---- and no more than that: a 33-bit burst may go unseen ----

  /** Two payloads of five bytes that differ in a run of 33 bits, from the first bit of the first byte
      to the first bit of the last, and have the same checksum. */
  lemma BurstOf33BitsMissed()
    ensures Checksum([0, 0, 0, 0, 0]) == Checksum([0x41, 0x06, 0x71, 0xdb, 0x01])
  {
  }

  lemma CheckBytes()
    ensures ByteStep(0xffff_ffff, 0x31) == 0x7c23_1048
    ensures ByteStep(0x7c23_1048, 0x32) == 0xb0ac_bb32
    ensures ByteStep(0xb0ac_bb32, 0x33) == 0x77b7_9c2d
    ensures ByteStep(0x77b7_9c2d, 0x34) == 0x641c_1f5c
    ensures ByteStep(0x641c_1f5c, 0x35) == 0x340a_c5e3
    ensures ByteStep(0x340a_c5e3, 0x36) == 0xf68d_2c9e
    ensures ByteStep(0xf68d_2c9e, 0x37) == 0xaffc_9660
    ensures ByteStep(0xaffc_9660, 0x38) == 0x651f_2550
    ensures ByteStep(0x651f_2550, 0x39) == 0x340b_c6d9
  {
  }

  lemma NextByte(crc: bv32, payload: seq<bv8>)
    ensures payload != [] ==> Register(crc, payload) == Register(ByteStep(crc, payload[0]), payload[1..])
    ensures Register(crc, []) == crc
  {
  }

  /** The customary check value: the checksum of the ASCII digits 123456789. */
  lemma CheckValue()
    ensures Checksum([0x31, 0x32, 0x33, 0x34, 0x35, 0x36, 0x37, 0x38, 0x39]) == 0xcbf4_3926
  {
    CheckBytes();
    hide ByteStep, Register;
    var digits: seq<bv8> := [0x31, 0x32, 0x33, 0x34, 0x35, 0x36, 0x37, 0x38, 0x39];
    NextByte(0xffff_ffff, digits[0..]);
    NextByte(0x7c23_1048, digits[1..]);
    NextByte(0xb0ac_bb32, digits[2..]);
    NextByte(0x77b7_9c2d, digits[3..]);
    NextByte(0x641c_1f5c, digits[4..]);
    NextByte(0x340a_c5e3, digits[5..]);
    NextByte(0xf68d_2c9e, digits[6..]);
    NextByte(0xaffc_9660, digits[7..]);
    NextByte(0x651f_2550, digits[8..]);
    NextByte(0x340b_c6d9, []);
    assert digits[0..] == digits && digits[9..] == [];
  }
}
