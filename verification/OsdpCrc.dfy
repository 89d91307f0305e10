/** The CRC-16 of the OSDP relay driver (polynomial 0x1021, initial value 0x1D0F): the driver's byte/bit
    loop, and the same checksum as a remainder of polynomials over GF(2).

    A polynomial is a sequence of coefficients, highest power first, so a message is its own polynomial and
    a register is a polynomial of 16 coefficients. */
module OsdpCrc {

  const INIT: bv16 := 0x1D0F
  const POLY: bv16 := 0x1021

  // ---- The driver's loop ----

  /** One turn of the inner loop: shift out the top bit, and subtract the polynomial when it was set. */
  function Shift(crc: bv16): bv16 {
    if crc & 0x8000 != 0 then (crc << 1) ^ POLY else crc << 1
  }

  function ShiftBy(crc: bv16, n: nat): bv16 {
    if n == 0 then crc else Shift(ShiftBy(crc, n - 1))
  }

  /** Add the byte at the top of the register, then one turn of the loop for each of its bits. */
  function ByteStep(crc: bv16, b: bv8): bv16 {
    ShiftBy(crc ^ ((b as bv16) << 8), |ByteBits(b)|)
  }

  /** The register after the bytes of `data`, starting from `crc`. */
  function CrcFrom(crc: bv16, data: seq<bv8>): bv16 {
    if data == [] then crc else ByteStep(CrcFrom(crc, data[..|data| - 1]), data[|data| - 1])
  }

  function Crc16(data: seq<bv8>): bv16 {
    CrcFrom(INIT, data)
  }

  /** osdpCRC16 as the driver runs it. */
  method OsdpCrc16(data: seq<bv8>) returns (crc: bv16)
    ensures crc == Crc16(data)
  {
    crc := INIT;
    for k := 0 to |data|
      invariant crc == CrcFrom(INIT, data[..k])
    {
      var b := data[k];
      ghost var before := crc;
      crc := crc ^ ((b as bv16) << 8);
      for i := 0 to 8
        invariant crc == ShiftBy(before ^ ((b as bv16) << 8), i)
      {
        if crc & 0x8000 != 0 {
          crc := (crc << 1) ^ POLY;
        } else {
          crc := crc << 1;
        }
      }
      assert data[..k + 1][..k] == data[..k];
    }
    assert data[..|data|] == data;
  }

  // ---- Polynomials over GF(2) ----

  type Bits = seq<bool>

  function Zeros(n: nat): (r: Bits)
    ensures |r| == n && forall i :: 0 <= i < n ==> !r[i]
  {
    seq(n, _ => false)
  }

  function Xor(a: Bits, b: Bits): (r: Bits)
    requires |a| == |b|
    ensures |r| == |a| && forall i :: 0 <= i < |a| ==> r[i] == (a[i] != b[i])
  {
    seq(|a|, i requires 0 <= i < |a| => a[i] != b[i])
  }

  /** x^12 + x^5 + 1: the generator below its leading x^16. */
  const TAPS: Bits :=
    [false, false, false, true, false, false, false, false, false, false, true, false, false, false, false, true]

  const GENERATOR: Bits := [true] + TAPS

  /** The generator times `q`. */
  function Times(q: Bits): (r: Bits)
    ensures |r| == |q| + 16
  {
    if q == [] then Zeros(16)
    else
      var n := |q| - 1;
      Xor(Times(q[..n]) + [false], Zeros(n) + (if q[n] then GENERATOR else Zeros(17)))
  }

  // ---- Registers as polynomials ----

  function Power(p: nat): bv16 {
    if p == 0 then 1 else Power(p - 1) << 1
  }

  predicate Bit(r: bv16, mask: bv16) {
    r & mask != 0
  }

  function Register(r: bv16): (b: Bits)
    ensures |b| == 16 && forall i :: 0 <= i < 16 ==> b[i] == Bit(r, Power(15 - i))
  {
    seq(16, i requires 0 <= i < 16 => Bit(r, Power(15 - i)))
  }

  /** The coefficients of a byte: it enters the register at the top. */
  function ByteBits(b: bv8): (r: Bits)
    ensures |r| == 8
  {
    Register((b as bv16) << 8)[..8]
  }

  function MessageBits(data: seq<bv8>): (r: Bits)
    ensures |r| == 8 * |data|
  {
    if data == [] then [] else MessageBits(data[..|data| - 1]) + ByteBits(data[|data| - 1])
  }

  lemma PowerValues()
    ensures Power(0) == 0x0001 && Power(1) == 0x0002 && Power(2) == 0x0004 && Power(3) == 0x0008
    ensures Power(4) == 0x0010 && Power(5) == 0x0020 && Power(6) == 0x0040 && Power(7) == 0x0080
    ensures Power(8) == 0x0100 && Power(9) == 0x0200 && Power(10) == 0x0400 && Power(11) == 0x0800
    ensures Power(12) == 0x1000 && Power(13) == 0x2000 && Power(14) == 0x4000 && Power(15) == 0x8000
  {
    assert Power(2) == 4; assert Power(4) == 0x10; assert Power(6) == 0x40; assert Power(8) == 0x100;
    assert Power(10) == 0x400; assert Power(12) == 0x1000; assert Power(14) == 0x4000;
  }

  lemma {:induction false} PowerIsOneBit(p: nat)
    ensures Power(p) & (Power(p) - 1) == 0
  {
    if p > 0 {
      PowerIsOneBit(p - 1);
      OneBitDoubles(Power(p - 1));
    }
  }

  lemma OneBitDoubles(m: bv16)
    requires m & (m - 1) == 0
    ensures (m << 1) & ((m << 1) - 1) == 0
  {
  }

  lemma BitXor(a: bv16, b: bv16, mask: bv16)
    requires mask & (mask - 1) == 0
    ensures Bit(a ^ b, mask) == (Bit(a, mask) != Bit(b, mask))
  {
  }

  lemma BitShift(r: bv16, mask: bv16)
    requires mask & 0x8000 == 0
    ensures Bit(r << 1, mask << 1) == Bit(r, mask)
  {
  }

  lemma LowBitOfShift(r: bv16)
    ensures !Bit(r << 1, 1)
  {
  }

  lemma PowerBelowTop(p: nat)
    requires p < 15
    ensures Power(p) & 0x8000 == 0
  {
    PowerValues();
  }

  lemma RegisterXor(a: bv16, b: bv16)
    ensures Register(a ^ b) == Xor(Register(a), Register(b))
  {
    forall i | 0 <= i < 16
      ensures Register(a ^ b)[i] == Xor(Register(a), Register(b))[i]
    {
      PowerIsOneBit(15 - i);
      BitXor(a, b, Power(15 - i));
    }
  }

  lemma PowerDoubles(p: nat)
    ensures Power(p + 1) == Power(p) << 1
  {
  }

  lemma LeftAt(r: bv16, p: nat)
    requires p < 16
    ensures Bit(r << 1, Power(p)) == (p > 0 && Bit(r, Power(p - 1)))
  {
    if p == 0 {
      LowBitOfShift(r);
    } else {
      PowerBelowTop(p - 1);
      PowerDoubles(p - 1);
      BitShift(r, Power(p - 1));
    }
  }

  lemma RegisterLeft(r: bv16)
    ensures Register(r << 1) == Register(r)[1..] + [false]
  {
    var s := r << 1;
    forall i | 0 <= i < 16
      ensures Register(s)[i] == (Register(r)[1..] + [false])[i]
    {
      LeftAt(r, 15 - i);
    }
  }

  lemma RegisterOfPoly()
    ensures Register(POLY) == TAPS
  {
    PowerValues();
    forall i | 0 <= i < 16
      ensures Register(POLY)[i] == TAPS[i]
    {
      assert 0x1021 & 0x8000 as bv16 == 0;
    }
  }

  lemma ZeroRegister(a: bv16)
    requires Register(a) == Zeros(16)
    ensures a == 0
  {
    PowerValues();
    forall p | 0 <= p < 16
      ensures a & Power(p) == 0
    {
      assert !Register(a)[15 - p];
    }
    NoBits(a);
  }

  lemma NoBits(a: bv16)
    requires a & 0x0001 == 0 && a & 0x0002 == 0 && a & 0x0004 == 0 && a & 0x0008 == 0
    requires a & 0x0010 == 0 && a & 0x0020 == 0 && a & 0x0040 == 0 && a & 0x0080 == 0
    requires a & 0x0100 == 0 && a & 0x0200 == 0 && a & 0x0400 == 0 && a & 0x0800 == 0
    requires a & 0x1000 == 0 && a & 0x2000 == 0 && a & 0x4000 == 0 && a & 0x8000 == 0
    ensures a == 0
  {
  }

  lemma XorCancels(a: bv16, b: bv16)
    requires a ^ b == 0
    ensures a == b
  {
  }

  lemma RegisterInjective(a: bv16, b: bv16)
    requires Register(a) == Register(b)
    ensures a == b
  {
    RegisterXor(a, b);
    assert Register(a ^ b) == Zeros(16);
    ZeroRegister(a ^ b);
    XorCancels(a, b);
  }

  // ---- The loop on coefficients, one message coefficient at a time ----

  /** One turn of the loop on a register given by its coefficients. */
  function ShiftBits(r: Bits): (s: Bits)
    requires |r| == 16
    ensures |s| == 16
  {
    Xor(r[1..] + [false], if r[0] then TAPS else Zeros(16))
  }

  function ShiftBitsBy(r: Bits, n: nat): (s: Bits)
    requires |r| == 16
    ensures |s| == 16
  {
    if n == 0 then r else ShiftBits(ShiftBitsBy(r, n - 1))
  }

  function Feed(r: Bits, d: bool): (s: Bits)
    requires |r| == 16
    ensures |s| == 16
  {
    ShiftBits(Xor(r, [d] + Zeros(15)))
  }

  /** The register after the coefficients of `m`, starting from `r`. */
  function FeedAll(r: Bits, m: Bits): (s: Bits)
    requires |r| == 16
    ensures |s| == 16
  {
    if m == [] then r else Feed(FeedAll(r, m[..|m| - 1]), m[|m| - 1])
  }

  lemma ShiftIsShiftBits(c: bv16)
    ensures Register(Shift(c)) == ShiftBits(Register(c))
  {
    PowerValues();
    RegisterLeft(c);
    RegisterOfPoly();
    RegisterXor(c << 1, POLY);
    if c & 0x8000 == 0 {
      assert Xor(Register(c)[1..] + [false], Zeros(16)) == Register(c)[1..] + [false];
    }
  }

  lemma {:induction false} ShiftByIsShiftBitsBy(c: bv16, n: nat)
    ensures Register(ShiftBy(c, n)) == ShiftBitsBy(Register(c), n)
  {
    if n > 0 {
      ShiftByIsShiftBitsBy(c, n - 1);
      ShiftIsShiftBits(ShiftBy(c, n - 1));
    }
  }

  lemma {:induction false} FeedAllAppend(r: Bits, a: Bits, b: Bits)
    requires |r| == 16
    ensures FeedAll(r, a + b) == FeedAll(FeedAll(r, a), b)
  {
    if b == [] {
      assert a + b == a;
    } else {
      var n := |b| - 1;
      assert (a + b)[..|a + b| - 1] == a + b[..n];
      FeedAllAppend(r, a, b[..n]);
    }
  }

  /** Coefficients added to the register below its top wait there until they are shifted to the top, so
      adding a whole byte at once is the same as adding its coefficients one by one. */
  lemma {:induction false} FeedAhead(y: Bits, v: Bits, n: nat)
    requires |y| == |v| == 16 && n <= 16
    ensures ShiftBitsBy(Xor(y, v), n) == Xor(FeedAll(y, v[..n]), v[n..] + Zeros(n))
  {
    if n == 0 {
      assert v[0..] + Zeros(0) == v;
    } else {
      hide Feed, ShiftBits, Xor;
      FeedAhead(y, v, n - 1);
      assert v[..n][..n - 1] == v[..n - 1];
      var waiting := v[n - 1..] + Zeros(n - 1);
      WaitingMoves(v, n, waiting);
      ShiftAhead(FeedAll(y, v[..n - 1]), waiting);
    }
  }

  lemma WaitingMoves(v: Bits, n: nat, waiting: Bits)
    requires 0 < n <= |v| && waiting == v[n - 1..] + Zeros(n - 1)
    ensures waiting[0] == v[n - 1] && waiting[1..] + [false] == v[n..] + Zeros(n)
  {
  }

  lemma ShiftAhead(f: Bits, w: Bits)
    requires |f| == |w| == 16
    ensures ShiftBits(Xor(f, w)) == Xor(Feed(f, w[0]), w[1..] + [false])
  {
  }

  lemma ByteIsItsBits(crc: bv16, b: bv8)
    ensures Register(ByteStep(crc, b)) == FeedAll(Register(crc), ByteBits(b))
  {
    var w := (b as bv16) << 8;
    ByteEntersAtTop(b);
    LowHalfIsClear(w);
    WordIsItsBits(crc, w);
  }

  lemma WordIsItsBits(crc: bv16, w: bv16)
    requires forall i :: 8 <= i < 16 ==> !Register(w)[i]
    ensures Register(ShiftBy(crc ^ w, 8)) == FeedAll(Register(crc), Register(w)[..8])
  {
    RegisterXor(crc, w);
    ShiftByIsShiftBitsBy(crc ^ w, 8);
    FeedHigh(Register(crc), Register(w), 8);
  }

  lemma FeedHigh(y: Bits, v: Bits, n: nat)
    requires |y| == |v| == 16 && n <= 16 && forall i :: n <= i < 16 ==> !v[i]
    ensures ShiftBitsBy(Xor(y, v), n) == FeedAll(y, v[..n])
  {
    hide ShiftBitsBy, FeedAll, Xor;
    FeedAhead(y, v, n);
    NothingWaits(FeedAll(y, v[..n]), v, n);
  }

  lemma NothingWaits(f: Bits, v: Bits, n: nat)
    requires |f| == |v| == 16 && n <= 16 && forall i :: n <= i < 16 ==> !v[i]
    ensures Xor(f, v[n..] + Zeros(n)) == f
  {
  }

  lemma ByteEntersAtTop(b: bv8)
    ensures ((b as bv16) << 8) & 0xff == 0
  {
  }

  lemma LowHalfIsClear(w: bv16)
    requires w & 0xff == 0
    ensures forall i :: 8 <= i < 16 ==> !Register(w)[i]
  {
    PowerValues();
    forall i | 8 <= i < 16
      ensures !Register(w)[i]
    {
      LowMask(w, Power(15 - i));
    }
  }

  lemma LowMask(w: bv16, mask: bv16)
    requires w & 0xff == 0 && mask & 0xff00 == 0
    ensures !Bit(w, mask)
  {
  }

  /** The driver's byte/bit loop is the coefficient-by-coefficient loop. */
  lemma {:induction false} CrcIsBitSerial(crc: bv16, data: seq<bv8>)
    ensures Register(CrcFrom(crc, data)) == FeedAll(Register(crc), MessageBits(data))
  {
    if data != [] {
      var n := |data| - 1;
      CrcIsBitSerial(crc, data[..n]);
      ByteIsItsBits(CrcFrom(crc, data[..n]), data[n]);
      FeedAllAppend(Register(crc), MessageBits(data[..n]), ByteBits(data[n]));
    }
  }

  // ---- The checksum is a remainder ----

  /** The dividend of a checksum with a preset register: the message moved up 16 places, with the preset
      added to its first 16 coefficients. */
  function Dividend(preset: Bits, m: Bits): (r: Bits)
    requires |preset| == 16
    ensures |r| == |m| + 16
  {
    Xor(preset + Zeros(|m|), m + Zeros(16))
  }

  /** `r` is what is left of the dividend after subtracting `q` times the generator. */
  ghost predicate Divides(preset: Bits, m: Bits, q: Bits, r: Bits) {
    |preset| == |r| == 16 && |q| == |m| && Dividend(preset, m) == Xor(Times(q), Zeros(|m|) + r)
  }

  /** The quotient that long division finds: one coefficient per message coefficient. */
  function Quotient(r: Bits, m: Bits): (q: Bits)
    requires |r| == 16
    ensures |q| == |m|
  {
    if m == [] then []
    else
      var n := |m| - 1;
      Quotient(r, m[..n]) + [FeedAll(r, m[..n])[0] != m[n]]
  }

  lemma NothingDivides(r: Bits)
    requires |r| == 16
    ensures Divides(r, [], [], r)
  {
    assert Dividend(r, []) == r;
    assert Zeros(0) + r == r;
    assert Xor(Zeros(16), r) == r;
  }

  lemma {:induction false} FeedDivides(r: Bits, m: Bits)
    requires |r| == 16
    ensures Divides(r, m, Quotient(r, m), FeedAll(r, m))
  {
    if m == [] {
      NothingDivides(r);
    } else {
      var m' := m[..|m| - 1];
      FeedDivides(r, m');
      DividesStep(r, m, Quotient(r, m'), FeedAll(r, m'), Quotient(r, m), FeedAll(r, m));
    }
  }

  /** The division with one more message coefficient. */
  lemma DividesStep(r: Bits, m: Bits, q: Bits, f: Bits, q': Bits, f': Bits)
    requires m != [] && Divides(r, m[..|m| - 1], q, f)
    requires q' == q + [f[0] != m[|m| - 1]] && f' == Feed(f, m[|m| - 1])
    ensures Divides(r, m, q', f')
  {
    hide Feed, Xor, Zeros, Dividend, Times;
    var m', d := m[..|m| - 1], m[|m| - 1];
    assert m == m' + [d];
    DividendGrows(r, m', d);
    DivideStep(|m'|, Times(q), f, d);
    TimesGrows(q, f[0] != d);
  }

  lemma TimesGrows(q: Bits, b: bool)
    ensures Times(q + [b]) == Xor(Times(q) + [false], Zeros(|q|) + (if b then GENERATOR else Zeros(17)))
  {
    assert (q + [b])[..|q|] == q;
  }

  lemma DividendGrows(r: Bits, m: Bits, d: bool)
    requires |r| == 16
    ensures Dividend(r, m + [d]) == Xor(Dividend(r, m) + [false], Zeros(|m|) + [d] + Zeros(16))
  {
  }

  /** One step of long division: the remainder moves up, and the generator is subtracted if that makes
      the new leading coefficient one. */
  lemma DivideStep(n: nat, t: Bits, f: Bits, d: bool)
    requires |t| == n + 16 && |f| == 16
    ensures var sub := if f[0] != d then GENERATOR else Zeros(17);
            Xor(Xor(t, Zeros(n) + f) + [false], Zeros(n) + [d] + Zeros(16))
            == Xor(Xor(t + [false], Zeros(n) + sub), Zeros(n + 1) + Feed(f, d))
  {
    hide Feed, Xor, Zeros;
    var sub := if f[0] != d then GENERATOR else Zeros(17);
    var lhs := Xor(Xor(t, Zeros(n) + f) + [false], Zeros(n) + [d] + Zeros(16));
    var rhs := Xor(Xor(t + [false], Zeros(n) + sub), Zeros(n + 1) + Feed(f, d));
    forall i | 0 <= i < n + 17
      ensures lhs[i] == rhs[i]
    {
      if i == n {
        assert sub[0] == (f[0] != d) by { GeneratorAt(0); }
      } else if n < i {
        GeneratorAt(i - n);
        FeedAt(f, d, i - n - 1);
      }
    }
  }

  lemma GeneratorAt(i: nat)
    requires i < 17
    ensures GENERATOR[i] == (i == 0 || TAPS[i - 1])
  {
  }

  lemma FeedAt(f: Bits, d: bool, i: nat)
    requires |f| == 16 && i < 16
    ensures Feed(f, d)[i] == ((i < 15 && f[i + 1]) != ((f[0] != d) && TAPS[i]))
  {
    hide TAPS;
    var g := Xor(f, [d] + Zeros(15));
    assert g[0] == (f[0] != d);
    assert i < 15 ==> g[i + 1] == f[i + 1];
    assert Feed(f, d) == ShiftBits(g);
  }

  // ---- ... and the only one ----

  lemma {:induction false} TimesLinear(a: Bits, b: Bits)
    requires |a| == |b|
    ensures Times(Xor(a, b)) == Xor(Times(a), Times(b))
  {
    if a == [] {
      assert Xor(a, b) == [];
      assert Xor(Zeros(16), Zeros(16)) == Zeros(16);
    } else {
      var n := |a| - 1;
      TimesLinear(a[..n], b[..n]);
      XorTake(a, b, n);
    }
  }

  /** The leading coefficient of a multiple of the generator is that of the multiplier. */
  lemma {:induction false} LeadingTerm(q: Bits, k: nat)
    requires k < |q| && q[k] && forall i :: 0 <= i < k ==> !q[i]
    ensures Times(q)[k]
  {
    var n := |q| - 1;
    if k < n {
      LeadingTerm(q[..n], k);
    } else {
      TimesZeros(q[..n]);
    }
  }

  lemma {:induction false} TimesZeros(q: Bits)
    requires forall i :: 0 <= i < |q| ==> !q[i]
    ensures Times(q) == Zeros(|q| + 16)
  {
    if q != [] {
      TimesZeros(q[..|q| - 1]);
    }
  }

  lemma {:induction false} FirstOne(q: Bits) returns (k: nat)
    requires q != Zeros(|q|)
    ensures k < |q| && q[k] && forall i :: 0 <= i < k ==> !q[i]
  {
    var n := |q| - 1;
    if q[..n] == Zeros(n) {
      k := n;
    } else {
      k := FirstOne(q[..n]);
    }
  }

  /** Only the zero multiple of the generator lies below its degree. */
  lemma NoSmallMultiple(q: Bits)
    requires forall i :: 0 <= i < |q| ==> !Times(q)[i]
    ensures q == Zeros(|q|)
  {
    if q != Zeros(|q|) {
      var k := FirstOne(q);
      LeadingTerm(q, k);
    }
  }

  lemma RemainderIsUnique(preset: Bits, m: Bits, q1: Bits, r1: Bits, q2: Bits, r2: Bits)
    requires Divides(preset, m, q1, r1) && Divides(preset, m, q2, r2)
    ensures q1 == q2 && r1 == r2
  {
    hide Times, Dividend, Xor, Zeros;
    var n, t1, t2 := |m|, Times(q1), Times(q2);
    TimesLinear(q1, q2);
    forall i | 0 <= i < n
      ensures !Times(Xor(q1, q2))[i]
    {
      assert Xor(t1, Zeros(n) + r1)[i] == Xor(t2, Zeros(n) + r2)[i];
    }
    NoSmallMultiple(Xor(q1, q2));
    XorZero(q1, q2);
    SameTail(t1, n, r1, r2);
  }

  lemma XorZero(a: Bits, b: Bits)
    requires |a| == |b| && Xor(a, b) == Zeros(|a|)
    ensures a == b
  {
    forall i | 0 <= i < |a|
      ensures a[i] == b[i]
    {
      assert !Xor(a, b)[i];
    }
  }

  lemma SameTail(t: Bits, n: nat, a: Bits, b: Bits)
    requires |t| == n + |a| && |a| == |b| && Xor(t, Zeros(n) + a) == Xor(t, Zeros(n) + b)
    ensures a == b
  {
    forall i | 0 <= i < |a|
      ensures a[i] == b[i]
    {
      assert Xor(t, Zeros(n) + a)[n + i] == (t[n + i] != a[i]);
      assert Xor(t, Zeros(n) + b)[n + i] == (t[n + i] != b[i]);
    }
  }

  /** The checksum of `data` is the remainder of the preset message on division by the generator: there is
      a quotient that leaves it, and nothing else is left by any quotient. */
  lemma CrcIsTheRemainder(data: seq<bv8>, r: Bits)
    ensures r == Register(Crc16(data)) <==> exists q :: Divides(Register(INIT), MessageBits(data), q, r)
  {
    var preset, m := Register(INIT), MessageBits(data);
    CrcIsBitSerial(INIT, data);
    FeedDivides(preset, m);
    if q :| Divides(preset, m, q, r) {
      RemainderIsUnique(preset, m, q, r, Quotient(preset, m), FeedAll(preset, m));
    }
  }

  // ---- What the checksum detects ----

  lemma ShiftBitsLinear(a: Bits, b: Bits)
    requires |a| == |b| == 16
    ensures ShiftBits(Xor(a, b)) == Xor(ShiftBits(a), ShiftBits(b))
  {
  }

  lemma XorAppend(a: Bits, b: Bits, c: Bits, d: Bits)
    requires |a| == |b| && |c| == |d|
    ensures Xor(a + c, b + d) == Xor(a, b) + Xor(c, d)
  {
  }

  lemma {:induction false} FeedAllLinear(r: Bits, s: Bits, a: Bits, b: Bits)
    requires |r| == |s| == 16 && |a| == |b|
    ensures FeedAll(Xor(r, s), Xor(a, b)) == Xor(FeedAll(r, a), FeedAll(s, b))
  {
    hide Feed;
    if a != [] {
      var n := |a| - 1;
      FeedAllLinear(r, s, a[..n], b[..n]);
      XorTake(a, b, n);
      FeedLinear(FeedAll(r, a[..n]), FeedAll(s, b[..n]), a[n], b[n]);
    }
  }

  lemma XorTake(a: Bits, b: Bits, n: nat)
    requires |a| == |b| && n <= |a|
    ensures Xor(a, b)[..n] == Xor(a[..n], b[..n])
  {
  }

  lemma FeedLinear(f: Bits, g: Bits, d: bool, e: bool)
    requires |f| == |g| == 16
    ensures Feed(Xor(f, g), d != e) == Xor(Feed(f, d), Feed(g, e))
  {
    hide ShiftBits;
    var x, y := Xor(f, [d] + Zeros(15)), Xor(g, [e] + Zeros(15));
    assert Xor(Xor(f, g), [d != e] + Zeros(15)) == Xor(x, y);
    ShiftBitsLinear(x, y);
  }

  /** Exclusive-or of two byte strings of one length. */
  function XorBytes(a: seq<bv8>, b: seq<bv8>): (r: seq<bv8>)
    requires |a| == |b|
    ensures |r| == |a|
  {
    seq(|a|, i requires 0 <= i < |a| => a[i] ^ b[i])
  }

  lemma WidenXor(a: bv8, b: bv8)
    ensures ((a ^ b) as bv16) << 8 == ((a as bv16) << 8) ^ ((b as bv16) << 8)
  {
  }

  lemma ByteBitsXor(a: bv8, b: bv8)
    ensures ByteBits(a ^ b) == Xor(ByteBits(a), ByteBits(b))
  {
    WidenXor(a, b);
    RegisterXor((a as bv16) << 8, (b as bv16) << 8);
  }

  lemma {:induction false} MessageBitsXor(a: seq<bv8>, b: seq<bv8>)
    requires |a| == |b|
    ensures MessageBits(XorBytes(a, b)) == Xor(MessageBits(a), MessageBits(b))
  {
    hide ByteBits, Xor;
    if a != [] {
      var n := |a| - 1;
      var x := XorBytes(a, b);
      MessageBitsXor(a[..n], b[..n]);
      assert x[..n] == XorBytes(a[..n], b[..n]);
      ByteBitsXor(a[n], b[n]);
      XorAppend(MessageBits(a[..n]), MessageBits(b[..n]), ByteBits(a[n]), ByteBits(b[n]));
    }
  }

  /** For byte strings of one length the checksum is affine over exclusive-or. */
  lemma CrcAffine(c: bv16, d: bv16, a: seq<bv8>, b: seq<bv8>)
    requires |a| == |b|
    ensures CrcFrom(c ^ d, XorBytes(a, b)) == CrcFrom(c, a) ^ CrcFrom(d, b)
  {
    var cd, ab, x, y := c ^ d, XorBytes(a, b), CrcFrom(c, a), CrcFrom(d, b);
    CrcIsBitSerial(cd, ab);
    CrcIsBitSerial(c, a);
    CrcIsBitSerial(d, b);
    RegisterXor(c, d);
    MessageBitsXor(a, b);
    FeedAllLinear(Register(c), Register(d), MessageBits(a), MessageBits(b));
    SameRegister(CrcFrom(cd, ab), x, y);
  }

  lemma SameRegister(z: bv16, x: bv16, y: bv16)
    requires Register(z) == Xor(Register(x), Register(y))
    ensures z == x ^ y
  {
    RegisterXor(x, y);
    RegisterInjective(z, x ^ y);
  }

  lemma ShiftBitsInjective(a: Bits, b: Bits)
    requires |a| == |b| == 16 && ShiftBits(a) == ShiftBits(b)
    ensures a == b
  {
    assert ShiftBits(a)[15] == a[0] && ShiftBits(b)[15] == b[0];
    forall i | 1 <= i < 16
      ensures a[i] == b[i]
    {
      assert ShiftBits(a)[i - 1] == (a[i] != (a[0] && TAPS[i - 1]));
      assert ShiftBits(b)[i - 1] == (b[i] != (b[0] && TAPS[i - 1]));
    }
  }

  lemma {:induction false} FeedAllInjective(r: Bits, s: Bits, m: Bits)
    requires |r| == |s| == 16 && FeedAll(r, m) == FeedAll(s, m)
    ensures r == s
  {
    if m != [] {
      var n := |m| - 1;
      var f, g := FeedAll(r, m[..n]), FeedAll(s, m[..n]);
      var top := [m[n]] + Zeros(15);
      ShiftBitsInjective(Xor(f, top), Xor(g, top));
      assert forall i :: 0 <= i < 16 ==> Xor(f, top)[i] == Xor(g, top)[i];
      assert f == g;
      FeedAllInjective(r, s, m[..n]);
    }
  }

  /** The checksum step is injective in the register: what a prefix left in it is never forgotten. */
  lemma CrcInjectiveInRegister(c: bv16, d: bv16, data: seq<bv8>)
    ensures CrcFrom(c, data) == CrcFrom(d, data) <==> c == d
  {
    CrcIsBitSerial(c, data);
    CrcIsBitSerial(d, data);
    if CrcFrom(c, data) == CrcFrom(d, data) {
      FeedAllInjective(Register(c), Register(d), MessageBits(data));
      RegisterInjective(c, d);
    }
  }

  lemma {:induction false} TrailingTerm(q: Bits, k: nat)
    requires k < |q| && q[k] && forall i :: k < i < |q| ==> !q[i]
    ensures Times(q)[k + 16]
  {
    var n := |q| - 1;
    if k < n {
      TrailingTerm(q[..n], k);
    }
  }

  lemma {:induction false} LastOne(q: Bits) returns (k: nat)
    requires q != Zeros(|q|)
    ensures k < |q| && q[k] && forall i :: k < i < |q| ==> !q[i]
  {
    var n := |q| - 1;
    if q[n] {
      k := n;
    } else {
      assert forall i :: 0 <= i < n ==> q[i] == q[..n][i];
      k := LastOne(q[..n]);
    }
  }

  /** A non-zero error no longer than the register leaves something in it. */
  lemma ShortErrorShows(z: Bits, w: Bits)
    requires z == Zeros(16) && |w| <= 16 && w != Zeros(|w|)
    ensures FeedAll(z, w) != z
  {
    var k := |w|;
    var q := Quotient(z, w);
    FeedDivides(z, w);
    if FeedAll(z, w) == z {
      ExactMultiple(z, w, Times(q));
      if q == Zeros(k) {
        ZeroMultiple(q, w, z);
      } else {
        var t := LastOne(q);
        TrailingTerm(q, t);
      }
    }
  }

  lemma ZeroMultiple(q: Bits, w: Bits, z: Bits)
    requires q == Zeros(|w|) && Times(q) == w + z
    ensures w == Zeros(|w|)
  {
    TimesZeros(q);
    assert forall i :: 0 <= i < |w| ==> w[i] == Times(q)[i];
  }

  lemma ExactMultiple(z: Bits, w: Bits, t: Bits)
    requires z == Zeros(16) && |t| == |w| + 16 && Dividend(z, w) == Xor(t, Zeros(|w|) + z)
    ensures t == w + z
  {
    forall i | 0 <= i < |t|
      ensures t[i] == (w + z)[i]
    {
      assert Dividend(z, w)[i] == (w + z)[i];
      assert Xor(t, Zeros(|w|) + z)[i] == t[i];
    }
  }

  lemma {:induction false} FeedZeros(z: Bits, n: nat)
    requires z == Zeros(16)
    ensures FeedAll(z, Zeros(n)) == z
  {
    hide Feed;
    if n > 0 {
      FeedZeros(z, n - 1);
      assert Zeros(n)[..n - 1] == Zeros(n - 1);
      FeedZero(z);
    }
  }

  lemma FeedZero(z: Bits)
    requires z == Zeros(16)
    ensures Feed(z, false) == z
  {
    hide TAPS;
    forall i | 0 <= i < 16
      ensures Feed(z, false)[i] == z[i]
    {
      FeedAt(z, false, i);
    }
  }

  lemma IsolatedErrorShows(z: Bits, from: nat, w: Bits, tail: nat)
    requires z == Zeros(16) && |w| <= 16 && w != Zeros(|w|)
    ensures FeedAll(z, Zeros(from) + w + Zeros(tail)) != z
  {
    FeedAllAppend(z, Zeros(from) + w, Zeros(tail));
    FeedAllAppend(z, Zeros(from), w);
    FeedZeros(z, from);
    FeedZeros(z, tail);
    ShortErrorShows(z, w);
    if FeedAll(z, Zeros(from) + w + Zeros(tail)) == z {
      FeedAllInjective(FeedAll(z, w), z, Zeros(tail));
    }
  }

  /** Every error burst of at most 16 bits, wherever it starts, changes the remainder. */
  lemma BurstDetected(r: Bits, a: Bits, b: Bits, from: nat, len: nat)
    requires |r| == 16 && |a| == |b| && a != b
    requires len <= 16 && from + len <= |a|
    requires forall i :: 0 <= i < |a| && !(from <= i < from + len) ==> a[i] == b[i]
    ensures FeedAll(r, a) != FeedAll(r, b)
  {
    var w := BurstShape(a, b, from, len);
    IsolatedErrorShows(Zeros(16), from, w, |a| - from - len);
    FeedAllLinear(r, r, a, b);
    XorSelf(r);
    XorSelf(FeedAll(r, a));
  }

  lemma XorSelf(r: Bits)
    ensures Xor(r, r) == Zeros(|r|)
  {
  }

  lemma BurstShape(a: Bits, b: Bits, from: nat, len: nat) returns (w: Bits)
    requires |a| == |b| && a != b && from + len <= |a|
    requires forall i :: 0 <= i < |a| && !(from <= i < from + len) ==> a[i] == b[i]
    ensures |w| == len && w != Zeros(len)
    ensures Xor(a, b) == Zeros(from) + w + Zeros(|a| - from - len)
  {
    w := Xor(a, b)[from..from + len];
    var i :| 0 <= i < |a| && a[i] != b[i];
    assert w[i - from];
  }

  // ---- Odd numbers of flipped bits ----

  function Odd(a: Bits): bool {
    if a == [] then false else Odd(a[..|a| - 1]) != a[|a| - 1]
  }

  lemma {:induction false} OddXor(a: Bits, b: Bits)
    requires |a| == |b|
    ensures Odd(Xor(a, b)) == (Odd(a) != Odd(b))
  {
    if a != [] {
      var n := |a| - 1;
      XorTake(a, b, n);
      OddXor(a[..n], b[..n]);
    }
  }

  lemma {:induction false} OddAppend(a: Bits, b: Bits)
    ensures Odd(a + b) == (Odd(a) != Odd(b))
  {
    if b == [] {
      assert a + b == a;
    } else {
      var n := |b| - 1;
      assert (a + b)[..|a + b| - 1] == a + b[..n];
      OddAppend(a, b[..n]);
    }
  }

  lemma {:induction false} ZerosEven(n: nat)
    ensures !Odd(Zeros(n))
  {
    if n > 0 {
      assert Zeros(n)[..n - 1] == Zeros(n - 1);
      ZerosEven(n - 1);
    }
  }

  lemma GeneratorEven()
    ensures !Odd(GENERATOR)
  {
    var g1 := [] + [true] + Zeros(3);
    var g2 := g1 + [true] + Zeros(6);
    var g3 := g2 + [true] + Zeros(4);
    OddPrefix([], true, 3);
    OddPrefix(g1, true, 6);
    OddPrefix(g2, true, 4);
    OddPrefix(g3, true, 0);
    assert GENERATOR == g3 + [true] + Zeros(0);
  }

  lemma OddPrefix(a: Bits, d: bool, n: nat)
    ensures Odd(a + [d] + Zeros(n)) == (Odd(a) != d)
  {
    OddAppend(a + [d], Zeros(n));
    ZerosEven(n);
    assert (a + [d])[..|a|] == a;
  }

  lemma {:induction false} TimesEven(q: Bits)
    ensures !Odd(Times(q))
  {
    if q == [] {
      ZerosEven(16);
    } else {
      var n := |q| - 1;
      TimesEven(q[..n]);
      GeneratorEven();
      ZerosEven(17);
      ZerosEven(n);
      OddAppend(Times(q[..n]), [false]);
      assert [false] == Zeros(1);
      ZerosEven(1);
      var sub := if q[n] then GENERATOR else Zeros(17);
      OddAppend(Zeros(n), sub);
      OddXor(Times(q[..n]) + [false], Zeros(n) + sub);
    }
  }

  /** The generator has an even number of terms, so the remainder carries the parity of the message. */
  lemma RemainderParity(r: Bits, m: Bits)
    requires |r| == 16
    ensures Odd(FeedAll(r, m)) == (Odd(r) != Odd(m))
  {
    var q, f := Quotient(r, m), FeedAll(r, m);
    FeedDivides(r, m);
    TimesEven(q);
    ZerosEven(|m|);
    ZerosEven(16);
    OddAppend(Zeros(|m|), f);
    OddXor(Times(q), Zeros(|m|) + f);
    OddAppend(r, Zeros(|m|));
    OddAppend(m, Zeros(16));
    OddXor(r + Zeros(|m|), m + Zeros(16));
  }

  // ---- Errors in bytes ----

  lemma {:induction false} MessageBitAt(data: seq<bv8>, i: nat, j: nat)
    requires i < |data| && j < 8
    ensures MessageBits(data)[8 * i + j] == ByteBits(data[i])[j]
  {
    var n := |data| - 1;
    if i < n {
      MessageBitAt(data[..n], i, j);
    }
  }

  lemma ByteBitsInjective(a: bv8, b: bv8)
    requires ByteBits(a) == ByteBits(b)
    ensures a == b
  {
    var v, w := (a as bv16) << 8, (b as bv16) << 8;
    ByteEntersAtTop(a);
    ByteEntersAtTop(b);
    LowHalfIsClear(v);
    LowHalfIsClear(w);
    assert Register(v) == ByteBits(a) + Register(v)[8..];
    assert Register(w) == ByteBits(b) + Register(w)[8..];
    assert Register(v)[8..] == Register(w)[8..];
    RegisterInjective(v, w);
    WideningInjective(a, b);
  }

  lemma WideningInjective(a: bv8, b: bv8)
    requires (a as bv16) << 8 == (b as bv16) << 8
    ensures a == b
  {
  }

  lemma MessageBitsInjective(a: seq<bv8>, b: seq<bv8>)
    requires |a| == |b| && MessageBits(a) == MessageBits(b)
    ensures a == b
  {
    forall i | 0 <= i < |a|
      ensures a[i] == b[i]
    {
      forall j | 0 <= j < 8
        ensures ByteBits(a[i])[j] == ByteBits(b[i])[j]
      {
        MessageBitAt(a, i, j);
        MessageBitAt(b, i, j);
      }
      ByteBitsInjective(a[i], b[i]);
    }
  }

  /** Changing one byte, or two adjacent bytes, always changes the checksum, whatever the register held. */
  lemma TwoByteErrorDetected(c: bv16, a: seq<bv8>, b: seq<bv8>, at: nat)
    requires |a| == |b| && a != b
    requires forall i :: 0 <= i < |a| && i != at && i != at + 1 ==> a[i] == b[i]
    ensures CrcFrom(c, a) != CrcFrom(c, b)
  {
    hide MessageBits, CrcFrom, FeedAll, Register, ByteBits;
    var ma, mb := MessageBits(a), MessageBits(b);
    if ma == mb {
      MessageBitsInjective(a, b);
    }
    assert at < |a| by {
      var i :| 0 <= i < |a| && a[i] != b[i];
    }
    var from, len := 8 * at, if at + 1 < |a| then 16 else 8;
    forall k | 0 <= k < |ma| && !(from <= k < from + len)
      ensures ma[k] == mb[k]
    {
      MessageBitAt(a, k / 8, k % 8);
      MessageBitAt(b, k / 8, k % 8);
    }
    BurstDetected(Register(c), ma, mb, from, len);
    CrcIsBitSerial(c, a);
    CrcIsBitSerial(c, b);
  }

  /** Flipping any odd number of message bits always changes the checksum. */
  lemma OddErrorDetected(c: bv16, a: seq<bv8>, b: seq<bv8>)
    requires |a| == |b| && Odd(Xor(MessageBits(a), MessageBits(b)))
    ensures CrcFrom(c, a) != CrcFrom(c, b)
  {
    OddXor(MessageBits(a), MessageBits(b));
    RemainderParity(Register(c), MessageBits(a));
    RemainderParity(Register(c), MessageBits(b));
    CrcIsBitSerial(c, a);
    CrcIsBitSerial(c, b);
  }
}
