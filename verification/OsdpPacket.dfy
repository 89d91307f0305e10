/** The OSDP command packet of the relay driver: its layout, the rolling sequence number, and what a receiver
    that follows the packet format can and cannot tell about damage on the line. */
module OsdpPacket {
  import opened OsdpCrc
  import opened Wrappers

  const SOM: bv8 := 0x53
  const CRC_MODE: bv8 := 0x04
  const MAX_LENGTH := 0xFFFF

  function LowByte(w: bv16): bv8 {
    (w & 0xff) as bv8
  }

  function HighByte(w: bv16): bv8 {
    ((w >> 8) & 0xff) as bv8
  }

  /** byte(n & 0xFF) of a non-negative Go int. */
  function ByteOf(n: nat): bv8 {
    (n % 256) as bv8
  }

  function ControlByte(sequence: bv8): bv8 {
    CRC_MODE | (sequence & 0x03)
  }

  function Header(address: bv8, sequence: bv8, command: bv8, totalLen: nat): (r: seq<bv8>)
    ensures |r| == 6
  {
    [SOM, address, ByteOf(totalLen), ByteOf(totalLen / 256), ControlByte(sequence), command]
  }

  function Sealed(body: seq<bv8>): (r: seq<bv8>)
    ensures |r| == |body| + 2
  {
    body + [LowByte(Crc16(body)), HighByte(Crc16(body))]
  }

  function Packet(address: bv8, sequence: bv8, command: bv8, data: seq<bv8>): (r: seq<bv8>)
    ensures |r| == |data| + 8
  {
    Sealed(Header(address, sequence, command, 5 + 1 + |data| + 2) + data)
  }

  class OsdpRelay {
    const address: bv8
    var sequence: bv8

    constructor (address: bv8)
      ensures this.address == address && sequence == 0
    {
      this.address := address;
      sequence := 0;
    }

    method BuildPacket(command: bv8, data: seq<bv8>) returns (pkt: seq<bv8>)
      ensures pkt == Packet(address, sequence, command, data)
    {
      var totalLen := 5 + 1 + |data| + 2;
      pkt := [];
      pkt := pkt + [SOM];
      pkt := pkt + [address];
      pkt := pkt + [ByteOf(totalLen)];
      pkt := pkt + [ByteOf(totalLen / 256)];
      pkt := pkt + [ControlByte(sequence)];
      pkt := pkt + [command];
      pkt := pkt + data;
      assert pkt == Header(address, sequence, command, totalLen) + data;
      var crc := OsdpCrc16(pkt);
      pkt := pkt + [LowByte(crc), HighByte(crc)];
    }

    /** `written` is the outcome of opening and writing the serial device. The sequence number moves on only
        after a packet went out. */
    method SendCommand(command: bv8, data: seq<bv8>, written: bool) returns (pkt: seq<bv8>)
      modifies this`sequence
      ensures pkt == Packet(address, old(sequence), command, data)
      ensures sequence == NextSequence(old(sequence), written)
      ensures old(sequence) < 4 ==>
                sequence == if !written then old(sequence) else if old(sequence) == 3 then 0 else old(sequence) + 1
    {
      pkt := BuildPacket(command, data);
      if !written {
        return;
      }
      sequence := (sequence + 1) & 0x03;
    }
  }

  function NextSequence(s: bv8, written: bool): bv8 {
    if written then (s + 1) & 0x03 else s
  }

  // ---- The receiver ----

  datatype Frame = Frame(address: bv8, sequence: bv8, command: bv8, data: seq<bv8>)

  /** Start marker, length field, and CRC mode in the control byte. */
  predicate HeaderOk(p: seq<bv8>) {
    && |p| >= 8
    && p[0] == SOM
    && (p[2] as int) + 256 * (p[3] as int) == |p|
    && p[4] & 0xFC == CRC_MODE
  }

  /** The trailer is the checksum of everything before it, low byte first. */
  predicate TrailerOk(p: seq<bv8>)
    requires |p| >= 8
  {
    var crc := Crc16(p[..|p| - 2]);
    p[|p| - 2] == LowByte(crc) && p[|p| - 1] == HighByte(crc)
  }

  /** A receiver reading the packet format. */
  predicate Accepts(p: seq<bv8>) {
    HeaderOk(p) && TrailerOk(p)
  }

  function Parse(p: seq<bv8>): Option<Frame> {
    if Accepts(p) then Some(Frame(p[1], p[4] & 0x03, p[5], p[6..|p| - 2])) else None
  }

  // ---- Packets parse back ----

  lemma ControlByteReads(s: bv8)
    ensures ControlByte(s) & 0xFC == CRC_MODE && ControlByte(s) & 0x03 == s & 0x03
  {
  }

  lemma NextByte(b: bv8)
    requires b as int < 255
    ensures (b + 1) as int == b as int + 1
  {
  }

  lemma ByteIs(n: nat, b: bv8)
    requires b as int == n
    ensures n < 256 && n as bv8 == b
  {
  }

  lemma {:induction false} ByteExists(n: nat) returns (b: bv8)
    requires n < 256
    ensures b as int == n
  {
    if n == 0 {
      b := 0;
    } else {
      var before := ByteExists(n - 1);
      NextByte(before);
      b := before + 1;
    }
  }

  lemma ByteReads(n: nat)
    requires n < 256
    ensures (n as bv8) as int == n
  {
    var b := ByteExists(n);
    ByteIs(n, b);
  }

  lemma Remainder(n: nat, q: nat, r: nat)
    requires r < 65536 && n == q * 65536 + r
    ensures n % 65536 == r
  {
  }

  lemma SplitLength(n: nat)
    ensures n % 65536 == n % 256 + 256 * (n / 256 % 256)
  {
    var q := n / 256;
    var top := q / 256;
    Remainder(n, top, n % 256 + 256 * (q % 256));
  }

  lemma LengthFieldReads(n: nat)
    ensures (ByteOf(n) as int) + 256 * (ByteOf(n / 256) as int) == n % 65536
  {
    ByteReads(n % 256);
    ByteReads(n / 256 % 256);
    SplitLength(n);
  }

  /** A built packet parses back to its sender, sequence number, command and data exactly when its total
      length fits the 16-bit length field; a longer one is refused. */
  lemma PacketParsesBack(address: bv8, sequence: bv8, command: bv8, data: seq<bv8>)
    ensures var parsed := Parse(Packet(address, sequence, command, data));
            && (|data| + 8 <= MAX_LENGTH <==> parsed == Some(Frame(address, sequence & 0x03, command, data)))
            && (|data| + 8 > MAX_LENGTH <==> parsed == None)
  {
    var n := |data| + 8;
    var p := Packet(address, sequence, command, data);
    PacketFields(address, sequence, command, data);
    ControlByteReads(sequence);
    LengthFieldReads(n);
    FieldsRead(p, n % 65536, ControlByte(sequence), sequence & 0x03);
    FitsField(n);
  }

  lemma FitsField(n: nat)
    ensures n % 65536 == n <==> n <= MAX_LENGTH
  {
  }

  /** What a receiver makes of a packet with these fields and a good trailer. */
  lemma FieldsRead(p: seq<bv8>, length: nat, control: bv8, sequence: bv8)
    requires |p| >= 8 && p[0] == SOM && p[4] == control && TrailerOk(p)
    requires (p[2] as int) + 256 * (p[3] as int) == length
    requires control & 0xFC == CRC_MODE && control & 0x03 == sequence
    ensures Parse(p) == if length == |p| then Some(Frame(p[1], sequence, p[5], p[6..|p| - 2])) else None
  {
  }

  lemma PacketFields(address: bv8, sequence: bv8, command: bv8, data: seq<bv8>)
    ensures var p, n := Packet(address, sequence, command, data), |data| + 8;
            && p[..6] == Header(address, sequence, command, n)
            && p[6..|p| - 2] == data
            && TrailerOk(p)
            && p[0] == SOM && p[1] == address && p[2] == ByteOf(n) && p[3] == ByteOf(n / 256)
            && p[4] == ControlByte(sequence) && p[5] == command
  {
    var n := |data| + 8;
    var body := Header(address, sequence, command, n) + data;
    var p := Packet(address, sequence, command, data);
    assert p[..|p| - 2] == body;
    assert p[6..|p| - 2] == data;
  }

  // ---- Damaged packets ----

  /** The register after one byte from an empty register: an entry of the usual CRC table. */
  function TableEntry(b: bv8): bv16 {
    ByteStep(0, b)
  }

  /** A turn of the loop without its branch. */
  function ShiftWords(c: bv16): bv16 {
    var t := c >> 15;
    (c << 1) ^ t ^ (t << 5) ^ (t << 12)
  }

  lemma ShiftIsShiftWords(c: bv16)
    ensures Shift(c) == ShiftWords(c)
  {
    if c & 0x8000 != 0 {
      ShiftWordsSet(c);
    } else {
      ShiftWordsClear(c);
    }
  }

  lemma ShiftWordsSet(c: bv16)
    requires c & 0x8000 != 0
    ensures (c << 1) ^ POLY == ShiftWords(c)
  {
  }

  lemma ShiftWordsClear(c: bv16)
    requires c & 0x8000 == 0
    ensures c << 1 == ShiftWords(c)
  {
  }

  lemma EightTurns(c: bv16)
    requires c & 0xff == 0
    ensures var x := (c >> 8) ^ (c >> 12);
            ShiftWords(ShiftWords(ShiftWords(ShiftWords(ShiftWords(ShiftWords(ShiftWords(ShiftWords(c))))))))
            == (x << 12) ^ (x << 5) ^ x
  {
  }

  lemma EightShifts(c: bv16)
    ensures ShiftBy(c, 8)
         == ShiftWords(ShiftWords(ShiftWords(ShiftWords(ShiftWords(ShiftWords(ShiftWords(ShiftWords(c))))))))
  {
    var s0 := ShiftBy(c, 0);
    ShiftIsShiftWords(s0); var s1 := ShiftBy(c, 1); assert s1 == ShiftWords(s0);
    ShiftIsShiftWords(s1); var s2 := ShiftBy(c, 2); assert s2 == ShiftWords(s1);
    ShiftIsShiftWords(s2); var s3 := ShiftBy(c, 3); assert s3 == ShiftWords(s2);
    ShiftIsShiftWords(s3); var s4 := ShiftBy(c, 4); assert s4 == ShiftWords(s3);
    ShiftIsShiftWords(s4); var s5 := ShiftBy(c, 5); assert s5 == ShiftWords(s4);
    ShiftIsShiftWords(s5); var s6 := ShiftBy(c, 6); assert s6 == ShiftWords(s5);
    ShiftIsShiftWords(s6); var s7 := ShiftBy(c, 7); assert s7 == ShiftWords(s6);
    ShiftIsShiftWords(s7);
  }

  /** One table entry besides the zero one fits in its low byte, and it is the entry of 0x89. */
  lemma OnlyEntryInLowByte(b: bv8)
    ensures HighByte(TableEntry(b)) == 0 <==> b == 0 || b == 0x89
    ensures TableEntry(0x89) == 0x00A1
  {
    var c := (b as bv16) << 8;
    ByteEntersAtTop(b);
    EightShifts(0 ^ c);
    EntryClosedForm(b);
    ClosedFormHighByte(b);
    EightShifts(0x8900);
    EightTurns(0x8900);
    assert TableEntry(0x89) == ShiftBy(0x8900, 8);
  }

  function ClosedForm(b: bv8): bv16 {
    var x := (b as bv16) ^ ((b >> 4) as bv16);
    (x << 12) ^ (x << 5) ^ x
  }

  lemma EntryClosedForm(b: bv8)
    ensures TableEntry(b) == ClosedForm(b)
  {
    var c := (b as bv16) << 8;
    ByteEntersAtTop(b);
    EightShifts(0 ^ c);
    EightTurns(0 ^ c);
    ByteAtTop(b);
  }

  lemma ByteAtTop(b: bv8)
    ensures var c := (b as bv16) << 8; (c >> 8) ^ (c >> 12) == (b as bv16) ^ ((b >> 4) as bv16) && 0 ^ c == c
  {
  }

  lemma ClosedFormHighByte(b: bv8)
    ensures HighByte(ClosedForm(b)) == 0 <==> b == 0 || b == 0x89
  {
  }

  function Iterate<T>(f: T -> T, c: T, n: nat): T {
    if n == 0 then c else f(Iterate(f, c, n - 1))
  }

  lemma {:induction false} IterateDistributes<T(!new)>(f: T -> T, op: (T, T) -> T, x: T, y: T, n: nat)
    requires forall a, b :: f(op(a, b)) == op(f(a), f(b))
    ensures Iterate(f, op(x, y), n) == op(Iterate(f, x, n), Iterate(f, y, n))
  {
    if n > 0 {
      IterateDistributes(f, op, x, y, n - 1);
    }
  }

  lemma {:induction false} ShiftByIterates(c: bv16, n: nat)
    ensures ShiftBy(c, n) == Iterate(Shift, c, n)
  {
    if n > 0 {
      ShiftByIterates(c, n - 1);
    }
  }

  function XorWords(a: bv16, b: bv16): bv16 {
    a ^ b
  }

  lemma ShiftDistributes()
    ensures forall a, b :: Shift(XorWords(a, b)) == XorWords(Shift(a), Shift(b))
  {
    forall a, b
      ensures Shift(XorWords(a, b)) == XorWords(Shift(a), Shift(b))
    {
      ShiftLinear(a, b);
    }
  }

  lemma ShiftByLinear(x: bv16, y: bv16, n: nat)
    ensures ShiftBy(x ^ y, n) == ShiftBy(x, n) ^ ShiftBy(y, n)
  {
    ShiftByDistributes(x, y, n);
  }

  lemma ShiftByDistributes(x: bv16, y: bv16, n: nat)
    ensures ShiftBy(XorWords(x, y), n) == XorWords(ShiftBy(x, n), ShiftBy(y, n))
  {
    hide Iterate, ShiftBy, Shift, XorWords;
    ShiftDistributes();
    IterateDistributes(Shift, XorWords, x, y, n);
    ShiftByIterates(x, n);
    ShiftByIterates(y, n);
    ShiftByIterates(XorWords(x, y), n);
  }

  lemma ShiftLinear(x: bv16, y: bv16)
    ensures Shift(x ^ y) == Shift(x) ^ Shift(y)
  {
    ShiftIsShiftWords(x);
    ShiftIsShiftWords(y);
    ShiftIsShiftWords(x ^ y);
    ShiftWordsLinear(x, y);
  }

  lemma ShiftWordsLinear(x: bv16, y: bv16)
    ensures ShiftWords(x ^ y) == ShiftWords(x) ^ ShiftWords(y)
  {
  }

  lemma StepDifference(c: bv16, v: bv16, w: bv16, n: nat)
    ensures ShiftBy(c ^ v, n) ^ ShiftBy(c ^ w, n) == ShiftBy(0 ^ (v ^ w), n)
  {
    ShiftByLinear(c ^ v, c ^ w, n);
    CommonPart(c, v, w);
  }

  lemma CommonPart(c: bv16, v: bv16, w: bv16)
    ensures (c ^ v) ^ (c ^ w) == 0 ^ (v ^ w)
  {
  }

  function AtTop(b: bv8): bv16 {
    (b as bv16) << 8
  }

  lemma AtTopXor(a: bv8, b: bv8, d: bv8)
    requires d == a ^ b
    ensures AtTop(d) == AtTop(a) ^ AtTop(b)
  {
  }

  lemma StepOfWord(c: bv16, a: bv8, v: bv16, n: nat)
    requires n == |ByteBits(a)| && v == AtTop(a)
    ensures ByteStep(c, a) == ShiftBy(c ^ v, n)
  {
  }

  lemma EntryOfWords(c: bv16, a: bv8, b: bv8, d: bv8, v: bv16, w: bv16, n: nat)
    requires ByteStep(c, a) == ShiftBy(c ^ v, n)
    requires ByteStep(c, b) == ShiftBy(c ^ w, n)
    requires ByteStep(0, d) == ShiftBy(0 ^ (v ^ w), n)
    ensures ByteStep(c, a) ^ ByteStep(c, b) == TableEntry(d)
  {
    StepDifference(c, v, w, n);
  }

  /** Two bytes fed to the same register leave registers that differ by a table entry. */
  lemma TableEntryOfDifference(c: bv16, a: bv8, b: bv8, d: bv8)
    requires d == a ^ b
    ensures ByteStep(c, a) ^ ByteStep(c, b) == TableEntry(d)
  {
    var n, v, w := |ByteBits(a)|, AtTop(a), AtTop(b);
    AtTopXor(a, b, d);
    StepOfWord(c, a, v, n);
    StepOfWord(c, b, w, n);
    StepOfWord(0, d, v ^ w, n);
    EntryOfWords(c, a, b, d, v, w, n);
  }

  lemma TrailerDetermines(a: bv16, b: bv16)
    requires LowByte(a) == LowByte(b) && HighByte(a) == HighByte(b)
    ensures a == b
  {
  }

  lemma BytesOfXor(a: bv16, b: bv16)
    ensures LowByte(a ^ b) == LowByte(a) ^ LowByte(b) && HighByte(a ^ b) == HighByte(a) ^ HighByte(b)
  {
  }

  /** The one pair of changes, to the last byte before the trailer and the first byte of it, that cancel. */
  predicate Unnoticed(last: bv8, last': bv8, low: bv8, low': bv8) {
    last ^ last' == 0x89 && low ^ low' == 0xA1
  }

  /** A receiver refuses every accepted packet in which one byte or two adjacent bytes were changed, with a
      single exception: because the trailer goes low byte first, the last byte before the trailer and the
      trailer's first byte can change together, by 0x89 and 0xA1, and go unnoticed. */
  lemma DamageDetected(p: seq<bv8>, q: seq<bv8>, at: nat)
    requires Accepts(p) && |q| == |p| && q != p
    requires forall i :: 0 <= i < |p| && i != at && i != at + 1 ==> p[i] == q[i]
    ensures at != |p| - 3 ==> !Accepts(q)
    ensures at == |p| - 3 ==>
              (Accepts(q) <==> Unnoticed(p[|p| - 3], q[|p| - 3], p[|p| - 2], q[|p| - 2]))
  {
    if at == |p| - 3 {
      SameHeader(p, q);
      StraddlingDamage(p, q);
    } else if at < |p| - 3 {
      BodyDamage(p, q, at);
    } else {
      TrailerDamage(p, q);
    }
  }

  /** `p` with the one pair of changes that cancel. */
  function Damaged(p: seq<bv8>): seq<bv8>
    requires |p| >= 8
  {
    p[|p| - 3 := p[|p| - 3] ^ 0x89][|p| - 2 := p[|p| - 2] ^ 0xA1]
  }

  /** No packet is safe from it: every one that fits can be damaged in this way, and is then accepted as
      another command or with other data. */
  lemma DamageUnnoticed(address: bv8, sequence: bv8, command: bv8, data: seq<bv8>)
    requires |data| + 8 <= MAX_LENGTH
    ensures var p := Packet(address, sequence, command, data);
            Accepts(p) && Accepts(Damaged(p)) && Parse(Damaged(p)) != Parse(p)
  {
    var p := Packet(address, sequence, command, data);
    PacketParsesBack(address, sequence, command, data);
    hide Packet, HeaderOk, TrailerOk;
    var n := |p|;
    Flipped(p[n - 3], 0x89);
    Flipped(p[n - 2], 0xA1);
    assert Damaged(p)[n - 3] != p[n - 3];
    DamageDetected(p, Damaged(p), n - 3);
    LastByteRead(p, Damaged(p));
  }

  lemma Flipped(b: bv8, d: bv8)
    requires d != 0
    ensures b ^ (b ^ d) == d && b ^ d != b
  {
  }

  lemma LastByteRead(p: seq<bv8>, q: seq<bv8>)
    requires |p| == |q| && Accepts(p) && Accepts(q) && p[|p| - 3] != q[|p| - 3]
    ensures Parse(p) != Parse(q)
  {
    assert |p| >= 8;
    hide HeaderOk, TrailerOk;
    if |p| > 8 {
      LastOfSlice(p, q, |p|);
    }
  }

  lemma LastOfSlice(p: seq<bv8>, q: seq<bv8>, n: nat)
    requires |p| == |q| == n > 8 && p[n - 3] != q[n - 3]
    ensures p[6..n - 2] != q[6..n - 2]
  {
    var k := n - 9;
    assert p[6..n - 2][k] == p[n - 3];
    assert q[6..n - 2][k] == q[n - 3];
  }

  lemma SameHeader(p: seq<bv8>, q: seq<bv8>)
    requires |p| == |q| >= 8 && p[..5] == q[..5]
    ensures HeaderOk(p) == HeaderOk(q)
  {
    assert p[0] == p[..5][0] && p[2] == p[..5][2] && p[3] == p[..5][3] && p[4] == p[..5][4];
  }

  lemma BodyDamage(p: seq<bv8>, q: seq<bv8>, at: nat)
    requires |q| == |p| >= 8 && q != p && at < |p| - 3 && TrailerOk(p)
    requires forall i :: 0 <= i < |p| && i != at && i != at + 1 ==> p[i] == q[i]
    ensures !TrailerOk(q)
  {
    var n := |p| - 2;
    var b, c := p[..n], q[..n];
    assert b != c by {
      var i :| 0 <= i < |p| && p[i] != q[i];
      assert b[i] != c[i];
    }
    TwoByteErrorDetected(INIT, b, c, at);
    if TrailerOk(q) {
      TrailerDetermines(Crc16(b), Crc16(c));
    }
  }

  lemma TrailerDamage(p: seq<bv8>, q: seq<bv8>)
    requires |q| == |p| >= 8 && q != p && TrailerOk(p)
    requires forall i :: 0 <= i < |p| - 2 ==> p[i] == q[i]
    ensures !TrailerOk(q)
  {
    assert p[..|p| - 2] == q[..|p| - 2];
  }

  /** The register after a body, from the register before its last byte. */
  lemma LastByte(b: seq<bv8>)
    requires b != []
    ensures Crc16(b) == ByteStep(Crc16(b[..|b| - 1]), b[|b| - 1])
  {
  }

  /** The register behind a trailer, from the register before the last byte it covers. */
  lemma LastStep(p: seq<bv8>, head: seq<bv8>) returns (crc: bv16)
    requires |p| >= 8 && head == p[..|p| - 3]
    ensures crc == ByteStep(Crc16(head), p[|p| - 3])
    ensures TrailerOk(p) <==> p[|p| - 2] == LowByte(crc) && p[|p| - 1] == HighByte(crc)
  {
    var b := p[..|p| - 2];
    assert b[..|b| - 1] == head;
    LastByte(b);
    crc := Crc16(b);
  }

  lemma StraddlingDamage(p: seq<bv8>, q: seq<bv8>)
    requires |q| == |p| >= 8 && q != p && TrailerOk(p)
    requires forall i :: 0 <= i < |p| && i != |p| - 3 && i != |p| - 2 ==> p[i] == q[i]
    ensures TrailerOk(q) <==> Unnoticed(p[|p| - 3], q[|p| - 3], p[|p| - 2], q[|p| - 2])
  {
    hide TrailerOk, Unnoticed, ByteStep, LowByte, HighByte, CrcFrom;
    var n := |p|;
    var head := p[..n - 3];
    assert head == q[..n - 3];
    assert p[n - 3] != q[n - 3] || p[n - 2] != q[n - 2] by {
      var i :| 0 <= i < n && p[i] != q[i];
    }
    var c := LastStep(p, head);
    var c' := LastStep(q, head);
    EndDifference(Crc16(head), c, c', p[n - 3], q[n - 3], p[n - 2], q[n - 2]);
  }

  lemma EndDifference(r: bv16, c: bv16, c': bv16, last: bv8, last': bv8, low: bv8, low': bv8)
    requires c == ByteStep(r, last) && c' == ByteStep(r, last')
    requires low == LowByte(c) && (last != last' || low != low')
    ensures low' == LowByte(c') && HighByte(c) == HighByte(c') <==> Unnoticed(last, last', low, low')
  {
    TableEntryOfDifference(r, last, last', last ^ last');
    CancelTogether(c, c', last, last', low, low');
  }

  lemma CancelTogether(a: bv16, b: bv16, last: bv8, last': bv8, low: bv8, low': bv8)
    requires a ^ b == TableEntry(last ^ last') && low == LowByte(a)
    requires last != last' || low != low'
    ensures low' == LowByte(b) && HighByte(a) == HighByte(b) <==> Unnoticed(last, last', low, low')
  {
    LowEntries(last ^ last', low ^ low');
    CancelWords(a, b, TableEntry(last ^ last'), last, last', low, low');
  }

  lemma CancelWords(a: bv16, b: bv16, entry: bv16, last: bv8, last': bv8, low: bv8, low': bv8)
    requires a ^ b == entry && low == LowByte(a)
    requires last != last' || low != low'
    requires var d, x := last ^ last', low ^ low';
             HighByte(entry) == 0 && LowByte(entry) == x <==> (d == 0 && x == 0) || (d == 0x89 && x == 0xA1)
    ensures low' == LowByte(b) && HighByte(a) == HighByte(b) <==> Unnoticed(last, last', low, low')
  {
    Different(last, last');
    Different(low, low');
    TrailerDifference(a, b, entry, low', low ^ low');
  }

  lemma TrailerDifference(a: bv16, b: bv16, t: bv16, low: bv8, x: bv8)
    requires a ^ b == t && LowByte(a) ^ low == x
    ensures low == LowByte(b) && HighByte(a) == HighByte(b) <==> HighByte(t) == 0 && LowByte(t) == x
  {
    BytesOfXor(a, b);
    Different(HighByte(a), HighByte(b));
    SameAgainst(LowByte(a), LowByte(b), low);
  }

  lemma Different(a: bv8, b: bv8)
    ensures a ^ b == 0 <==> a == b
  {
  }

  lemma SameAgainst(a: bv8, b: bv8, c: bv8)
    ensures c == b <==> a ^ c == a ^ b
  {
  }

  lemma LowEntries(d: bv8, x: bv8)
    ensures HighByte(TableEntry(d)) == 0 && LowByte(TableEntry(d)) == x
            <==> (d == 0 && x == 0) || (d == 0x89 && x == 0xA1)
  {
    OnlyEntryInLowByte(d);
    assert TableEntry(0) == 0 by {
      EntryClosedForm(0);
    }
  }
}
