/** The Wiegand card reader: decoding of 26- and 34-bit frames, and the loop that assembles frames from edges. */
module Wiegand {
  import opened Wrappers

  type Byte = x: int | 0 <= x < 256

  // ---- Parity and values ----

  function Ones(bits: seq<Byte>): nat {
    if bits == [] then 0 else Ones(bits[..|bits| - 1]) + (if bits[|bits| - 1] != 0 then 1 else 0)
  }

  predicate EvenParity(bits: seq<Byte>) {
    Ones(bits) % 2 == 0
  }

  method CheckEvenParity(bits: seq<Byte>) returns (even: bool)
    ensures even == EvenParity(bits)
  {
    var count := 0;
    for i := 0 to |bits|
      invariant count == Ones(bits[..i])
    {
      if bits[i] != 0 {
        count := count + 1;
      }
      assert bits[..i + 1][..i] == bits[..i];
    }
    assert bits[..|bits|] == bits;
    even := count % 2 == 0;
  }

  function Pow2(n: nat): nat {
    if n == 0 then 1 else 2 * Pow2(n - 1)
  }

  /** The bits as a binary number, first bit most significant; only the low bit of each byte counts. */
  function Value(bits: seq<Byte>): nat {
    if bits == [] then 0 else 2 * Value(bits[..|bits| - 1]) + bits[|bits| - 1] % 2
  }

  lemma {:induction false} ValueBound(bits: seq<Byte>)
    ensures Value(bits) < Pow2(|bits|)
  {
    if bits != [] {
      ValueBound(bits[..|bits| - 1]);
    }
  }

  const UINT32 := 0x1_0000_0000

  /** bitsToUint: a 32-bit accumulator, so only the last 32 bits of a longer slice would count. */
  method BitsToUint(bits: seq<Byte>) returns (val: int)
    ensures val == Value(bits) % UINT32
    ensures |bits| <= 32 ==> val == Value(bits)
  {
    val := 0;
    for i := 0 to |bits|
      invariant val == Value(bits[..i]) % UINT32
    {
      ShiftIn(Value(bits[..i]), val, bits[i] % 2);
      ValueGrows(bits, i);
      val := (val * 2) % UINT32 + bits[i] % 2;
    }
    assert bits[..|bits|] == bits;
    if |bits| <= 32 {
      FitsUint32(bits);
    }
  }

  lemma ValueGrows(bits: seq<Byte>, i: nat)
    requires i < |bits|
    ensures Value(bits[..i + 1]) == 2 * Value(bits[..i]) + bits[i] % 2
  {
    assert bits[..i + 1][..i] == bits[..i];
  }

  lemma ShiftIn(v: nat, val: int, b: nat)
    requires val == v % UINT32 && b <= 1
    ensures (val * 2) % UINT32 + b == (2 * v + b) % UINT32
  {
    var q, carry := v / UINT32, if 2 * val < UINT32 then 0 else 1;
    var low := 2 * val - carry * UINT32;
    ModUnique(2 * val, carry, low);
    ModUnique(2 * v + b, 2 * q + carry, low + b);
  }

  lemma ModUnique(x: nat, q: nat, r: nat)
    requires x == q * UINT32 + r && r < UINT32
    ensures x % UINT32 == r
  {
  }

  lemma FitsUint32(bits: seq<Byte>)
    requires |bits| <= 32
    ensures Value(bits) < UINT32
  {
    ValueBound(bits);
    Pow2Grows(|bits|, 32);
    Pow2Sum(16, 16);
    Pow2Of16();
  }

  lemma {:induction false} Pow2Sum(m: nat, n: nat)
    ensures Pow2(m + n) == Pow2(m) * Pow2(n)
  {
    if n > 0 {
      Pow2Sum(m, n - 1);
    }
  }

  lemma Pow2Of16()
    ensures Pow2(16) == 0x10000
  {
    Pow2Sum(8, 8);
    assert Pow2(8) == 0x100;
  }

  lemma {:induction false} Pow2Grows(m: nat, n: nat)
    requires m <= n
    ensures Pow2(m) <= Pow2(n)
  {
    if m < n {
      Pow2Grows(m, n - 1);
    }
  }

  // ---- Frames ----

  datatype Card = Card(facility: nat, number: nat)

  datatype Decoded = Good(credential: string, card: Card) | Bad

  function Decode26(bits: seq<Byte>): Decoded {
    if |bits| != 26 then Bad
    else if !EvenParity(bits[0..13]) then Bad
    else if EvenParity(bits[13..26]) then Bad
    else Good("wiegand_26", Card(Value(bits[1..9]) % 0x10000, Value(bits[9..25])))
  }

  function Decode34(bits: seq<Byte>): Decoded {
    if |bits| != 34 then Bad
    else if !EvenParity(bits[0..17]) then Bad
    else if EvenParity(bits[17..34]) then Bad
    else Good("wiegand_34", Card(Value(bits[1..17]) % 0x10000, Value(bits[17..33])))
  }

  function DecodeFrame(bits: seq<Byte>): Decoded {
    if |bits| == 26 then Decode26(bits) else if |bits| == 34 then Decode34(bits) else Bad
  }

  predicate Binary(bits: seq<Byte>) {
    forall i :: 0 <= i < |bits| ==> bits[i] <= 1
  }

  /** The formats as a sender sees them: a parity bit at each end, facility and card number between. */
  datatype Format = Format(credential: string, facilityBits: nat, cardBits: nat)

  const W26 := Format("wiegand_26", 8, 16)
  const W34 := Format("wiegand_34", 16, 16)

  function FrameBits(f: Format): nat {
    f.facilityBits + f.cardBits + 2
  }

  function Digits(v: nat, n: nat): (r: seq<Byte>)
    ensures |r| == n && Binary(r)
  {
    if n == 0 then [] else Digits(v / 2, n - 1) + [v % 2]
  }

  function Parity(bits: seq<Byte>): Byte {
    Ones(bits) % 2
  }

  /** The frame a sender builds: even parity over the first half, odd parity over the second. */
  function Encode(f: Format, c: Card): (r: seq<Byte>)
    ensures |r| == FrameBits(f)
  {
    var data := Digits(c.facility, f.facilityBits) + Digits(c.number, f.cardBits);
    var half := |data| / 2;
    [Parity(data[..half])] + data + [1 - Parity(data[half..])]
  }

  predicate Fits(f: Format, c: Card) {
    c.facility < Pow2(f.facilityBits) && c.number < Pow2(f.cardBits)
  }

  lemma {:induction false} DigitsOfValue(bits: seq<Byte>)
    requires Binary(bits)
    ensures Digits(Value(bits), |bits|) == bits
  {
    if bits != [] {
      var n := |bits| - 1;
      DigitsOfValue(bits[..n]);
      assert Value(bits) / 2 == Value(bits[..n]) && Value(bits) % 2 == bits[n];
    }
  }

  lemma {:induction false} ValueOfDigits(v: nat, n: nat)
    requires v < Pow2(n)
    ensures Value(Digits(v, n)) == v
  {
    if n > 0 {
      ValueOfDigits(v / 2, n - 1);
      assert Digits(v, n)[..n - 1] == Digits(v / 2, n - 1);
    }
  }

  lemma {:induction false} OnesAppend(a: seq<Byte>, b: seq<Byte>)
    ensures Ones(a + b) == Ones(a) + Ones(b)
  {
    if b == [] {
      assert a + b == a;
    } else {
      assert (a + b)[..|a + b| - 1] == a + b[..|b| - 1];
      OnesAppend(a, b[..|b| - 1]);
    }
  }

  lemma OnesOne(b: Byte)
    ensures Ones([b]) == if b != 0 then 1 else 0
  {
    assert [b][..0] == [];
  }

  function DecodeAs(f: Format, bits: seq<Byte>): Decoded
    requires |bits| == FrameBits(f)
  {
    var half, n := (f.facilityBits + f.cardBits) / 2 + 1, f.facilityBits + 1;
    if EvenParity(bits[..half]) && !EvenParity(bits[half..])
    then Good(f.credential, Card(Value(bits[1..n]), Value(bits[n..|bits| - 1])))
    else Bad
  }

  /** A frame with its parity bits in place passes both checks, and only such a frame does. */
  lemma ParityBits(bits: seq<Byte>, pe: Byte, data: seq<Byte>, po: Byte, half: nat)
    requires bits == [pe] + data + [po]
    requires Binary(data) && pe <= 1 && po <= 1 && half <= |data|
    ensures EvenParity(bits[..half + 1]) && !EvenParity(bits[half + 1..])
            <==> pe == Parity(data[..half]) && po == 1 - Parity(data[half..])
  {
    assert bits[..half + 1] == [pe] + data[..half];
    assert bits[half + 1..] == data[half..] + [po];
    OnesAppend([pe], data[..half]);
    OnesAppend(data[half..], [po]);
    OnesOne(pe);
    OnesOne(po);
  }

  lemma Fields(bits: seq<Byte>, pe: Byte, a: seq<Byte>, b: seq<Byte>, po: Byte)
    requires bits == [pe] + (a + b) + [po]
    ensures bits[1..|a| + 1] == a && bits[|a| + 1..|bits| - 1] == b
  {
  }

  predicate ParitiesRight(pe: Byte, data: seq<Byte>, po: Byte) {
    var half := |data| / 2;
    pe == Parity(data[..half]) && po == 1 - Parity(data[half..])
  }

  lemma DecodedFields(f: Format, bits: seq<Byte>, pe: Byte, facility: seq<Byte>, number: seq<Byte>, po: Byte)
    requires bits == [pe] + (facility + number) + [po]
    requires |facility| == f.facilityBits && |number| == f.cardBits
    requires Binary(facility) && Binary(number) && pe <= 1 && po <= 1
    ensures DecodeAs(f, bits) == if ParitiesRight(pe, facility + number, po)
                                 then Good(f.credential, Card(Value(facility), Value(number))) else Bad
  {
    hide EvenParity, Value, DecodeAs;
    ParityBits(bits, pe, facility + number, po, |facility + number| / 2);
    Fields(bits, pe, facility, number, po);
    FromChecks(f, bits, ParitiesRight(pe, facility + number, po), Card(Value(facility), Value(number)));
  }

  lemma FromChecks(f: Format, bits: seq<Byte>, right: bool, c: Card)
    requires |bits| == FrameBits(f)
    requires var half := (f.facilityBits + f.cardBits) / 2 + 1;
             right <==> EvenParity(bits[..half]) && !EvenParity(bits[half..])
    requires var n := f.facilityBits + 1; c == Card(Value(bits[1..n]), Value(bits[n..|bits| - 1]))
    ensures DecodeAs(f, bits) == if right then Good(f.credential, c) else Bad
  {
  }

  /** Both decoders are the same decoder for their formats. */
  lemma DecodeInParts(f: Format, bits: seq<Byte>)
    requires f in {W26, W34} && |bits| == FrameBits(f) && Binary(bits)
    ensures DecodeFrame(bits) == DecodeAs(f, bits)
  {
    var facility := bits[1..f.facilityBits + 1];
    ValueBound(facility);
    Pow2Grows(f.facilityBits, 16);
    Pow2Of16();
    assert bits[0..13] == bits[..13] && bits[0..17] == bits[..17];
    assert |bits| == 26 ==> bits[13..26] == bits[13..];
    assert |bits| == 34 ==> bits[17..34] == bits[17..];
  }

  /** Every card that fits the format is read back from the frame built for it. */
  lemma DecodesWhatWasEncoded(f: Format, c: Card)
    requires f in {W26, W34} && Fits(f, c)
    ensures Binary(Encode(f, c)) && DecodeFrame(Encode(f, c)) == Good(f.credential, c)
  {
    EncodedAs(f, c);
    DecodeInParts(f, Encode(f, c));
  }

  lemma EncodedAs(f: Format, c: Card)
    requires Fits(f, c)
    ensures Binary(Encode(f, c)) && DecodeAs(f, Encode(f, c)) == Good(f.credential, c)
  {
    hide DecodeAs, Value;
    var facility, number := Digits(c.facility, f.facilityBits), Digits(c.number, f.cardBits);
    var data := facility + number;
    var half := |data| / 2;
    DecodedFields(f, Encode(f, c), Parity(data[..half]), facility, number, 1 - Parity(data[half..]));
    ValueOfDigits(c.facility, f.facilityBits);
    ValueOfDigits(c.number, f.cardBits);
  }

  /** Every accepted frame is the frame built for the card it decodes to, and that card fits. With the lemma
      above: the decoder is a bijection between accepted frames and the cards of each format. */
  lemma EncodesWhatWasDecoded(bits: seq<Byte>)
    requires Binary(bits) && DecodeFrame(bits).Good?
    ensures exists f :: f in {W26, W34} && f.credential == DecodeFrame(bits).credential
                        && Fits(f, DecodeFrame(bits).card) && Encode(f, DecodeFrame(bits).card) == bits
  {
    var f := if |bits| == 26 then W26 else W34;
    DecodeInParts(f, bits);
    DecodedAs(f, bits);
  }

  lemma DecodedAs(f: Format, bits: seq<Byte>)
    requires |bits| == FrameBits(f) && Binary(bits)
    requires DecodeAs(f, bits).Good?
    ensures Fits(f, DecodeAs(f, bits).card) && Encode(f, DecodeAs(f, bits).card) == bits
  {
    hide DecodeAs, Encode, Fits;
    var n, last := f.facilityBits + 1, |bits| - 1;
    InFields(bits, n);
    DecodedParts(f, bits, bits[0], bits[1..n], bits[n..last], bits[last]);
  }

  lemma InFields(bits: seq<Byte>, n: nat)
    requires 1 <= n < |bits|
    ensures bits == [bits[0]] + (bits[1..n] + bits[n..|bits| - 1]) + [bits[|bits| - 1]]
  {
  }

  lemma DecodedParts(f: Format, bits: seq<Byte>, pe: Byte, facility: seq<Byte>, number: seq<Byte>, po: Byte)
    requires bits == [pe] + (facility + number) + [po]
    requires |facility| == f.facilityBits && |number| == f.cardBits
    requires Binary(facility) && Binary(number) && pe <= 1 && po <= 1
    requires DecodeAs(f, bits).Good?
    ensures Fits(f, DecodeAs(f, bits).card) && Encode(f, DecodeAs(f, bits).card) == bits
  {
    DecodedFields(f, bits, pe, facility, number, po);
    ValueBound(facility);
    ValueBound(number);
    DigitsOfValue(facility);
    DigitsOfValue(number);
    Rebuilt(f, DecodeAs(f, bits).card, bits, facility + number);
  }

  lemma Rebuilt(f: Format, c: Card, bits: seq<Byte>, data: seq<Byte>)
    requires data == Digits(c.facility, f.facilityBits) + Digits(c.number, f.cardBits)
    requires var half := |data| / 2; bits == [Parity(data[..half])] + data + [1 - Parity(data[half..])]
    ensures Encode(f, c) == bits
  {
  }

  function Distance(a: seq<Byte>, b: seq<Byte>): nat
    requires |a| == |b|
  {
    if a == [] then 0
    else Distance(a[..|a| - 1], b[..|b| - 1]) + (if a[|a| - 1] != b[|b| - 1] then 1 else 0)
  }

  lemma {:induction false} DistanceParity(a: seq<Byte>, b: seq<Byte>)
    requires |a| == |b| && Binary(a) && Binary(b)
    ensures (Ones(a) + Ones(b) + Distance(a, b)) % 2 == 0
  {
    if a != [] {
      DistanceParity(a[..|a| - 1], b[..|b| - 1]);
    }
  }

  lemma HalvesSumToOdd(a: seq<Byte>, b: seq<Byte>)
    requires EvenParity(a) && !EvenParity(b)
    ensures Ones(a + b) % 2 == 1
  {
    OnesAppend(a, b);
    OddSum(Ones(a), Ones(b));
  }

  lemma OddSum(m: nat, n: nat)
    requires m % 2 == 0 && n % 2 == 1
    ensures (m + n) % 2 == 1
  {
  }

  lemma GoodFramesAreOdd(bits: seq<Byte>)
    requires Binary(bits) && DecodeFrame(bits).Good?
    ensures Ones(bits) % 2 == 1
  {
    if |bits| == 26 {
      HalvesSumToOdd(bits[0..13], bits[13..26]);
      assert bits == bits[0..13] + bits[13..26];
    } else {
      HalvesSumToOdd(bits[0..17], bits[17..34]);
      assert bits == bits[0..17] + bits[17..34];
    }
  }

  /** A frame with an odd number of bits in error is never accepted. */
  lemma OddErrorsRejected(sent: seq<Byte>, received: seq<Byte>)
    requires |sent| == |received| && Binary(sent) && Binary(received)
    requires DecodeFrame(sent).Good? && Distance(sent, received) % 2 == 1
    ensures DecodeFrame(received) == Bad
  {
    GoodFramesAreOdd(sent);
    if DecodeFrame(received).Good? {
      GoodFramesAreOdd(received);
      OddAndOdd(sent, received);
    }
  }

  lemma OddAndOdd(a: seq<Byte>, b: seq<Byte>)
    requires |a| == |b| && Binary(a) && Binary(b) && Ones(a) % 2 == 1 && Ones(b) % 2 == 1
    ensures Distance(a, b) % 2 == 0
  {
    DistanceParity(a, b);
  }

  // ---- The read loop ----

  const SECOND := 1_000_000_000
  const DEBOUNCE := 2 * SECOND

  /** What the loop receives: a bit, or the frame timer; `doneAt` is the clock after the callback returned. */
  datatype Event = Bit(value: Byte, at: int) | Timer(at: int, doneAt: int)

  /** A card reported to the agent, with the bits it was decoded from. */
  datatype Report = Report(frame: seq<Byte>, credential: string, card: Card, at: int, doneAt: int)

  predicate Debouncing(reports: seq<Report>, now: int) {
    reports != [] && now < reports[|reports| - 1].doneAt + DEBOUNCE
  }

  class ReadLoop {
    var bits: seq<Byte>
    var debounceUntil: Option<int>
    var reports: seq<Report>       // every callback so far
    ghost var run: seq<Event>

    ghost predicate Valid()
      reads this
    {
      && Chronological(run)
      && reports == Reports(run)
      && bits == Unread(run)
      && debounceUntil == (if reports == [] then None else Some(reports[|reports| - 1].doneAt + DEBOUNCE))
    }

    constructor ()
      ensures Valid() && run == []
    {
      bits, debounceUntil, reports, run := [], None, [], [];
    }

    method OnBit(value: Byte, now: int)
      requires Valid() && Chronological(run + [Bit(value, now)])
      modifies this
      ensures Valid() && run == old(run) + [Bit(value, now)]
    {
      hide Chronological, Unread, Reports;
      BitArrives(run, value, now);
      run := run + [Bit(value, now)];
      if debounceUntil.Some? && now < debounceUntil.value {
        return;
      }
      bits := bits + [value];
    }

    method OnTimer(now: int, doneAt: int)
      requires Valid() && Chronological(run + [Timer(now, doneAt)])
      modifies this
      ensures Valid() && run == old(run) + [Timer(now, doneAt)]
    {
      hide DecodeFrame, Chronological, Unread, Reports;
      NothingDecodes();
      TimerFires(run, now, doneAt);
      run := run + [Timer(now, doneAt)];
      if |bits| == 0 {
        return;
      }
      var frame := bits;
      bits := [];
      if !(debounceUntil.Some? && now < debounceUntil.value) {
        var d := DecodeFrame(frame);
        if d.Good? {
          reports := reports + [Report(frame, d.credential, d.card, now, doneAt)];
          debounceUntil := Some(doneAt + DEBOUNCE);
        }
      }
    }
  }

  lemma NothingDecodes()
    ensures DecodeFrame([]) == Bad
  {
  }

  function EndOf(e: Event): int {
    if e.Bit? then e.at else e.doneAt
  }

  predicate Chronological(run: seq<Event>) {
    && (forall i :: 0 <= i < |run| ==> run[i].at <= EndOf(run[i]))
    && (forall i, j :: 0 <= i < j < |run| ==> EndOf(run[i]) <= run[j].at)
  }

  /** The number of events up to and including the last timer event: where the current frame starts. */
  function FrameStart(run: seq<Event>): (n: nat)
    ensures n <= |run| && (n > 0 ==> run[n - 1].Timer?)
    ensures forall i :: n <= i < |run| ==> run[i].Bit?
  {
    if run == [] then 0
    else if run[|run| - 1].Timer? then |run|
    else FrameStart(run[..|run| - 1])
  }

  /** The values of the bits that arrived outside the debounce window set by `reports`. */
  function Heard(events: seq<Event>, reports: seq<Report>): seq<Byte>
    requires forall i :: 0 <= i < |events| ==> events[i].Bit?
  {
    if events == [] then []
    else
      var n := |events| - 1;
      Heard(events[..n], reports) + (if Debouncing(reports, events[n].at) then [] else [events[n].value])
  }

  /** The bits heard since the last frame end. */
  function Unread(run: seq<Event>): seq<Byte>
    decreases |run|, 1
  {
    var n := FrameStart(run);
    Heard(run[n..], Reports(run[..n]))
  }

  /** Every report of a run: each timer event reports the bits heard since the previous one, if they decode. */
  function Reports(run: seq<Event>): seq<Report>
    decreases |run|, 0
  {
    if run == [] then []
    else
      var n := |run| - 1;
      var before := Reports(run[..n]);
      if run[n].Bit? then before
      else
        var frame := Unread(run[..n]);
        var d := DecodeFrame(frame);
        if d.Good? then before + [Report(frame, d.credential, d.card, run[n].at, run[n].doneAt)] else before
  }

  lemma {:induction false} ReportsOfFrame(run: seq<Event>)
    ensures Reports(run) == Reports(run[..FrameStart(run)])
  {
    if run != [] && run[|run| - 1].Bit? {
      var n := |run| - 1;
      ReportsOfFrame(run[..n]);
      assert run[..n][..FrameStart(run)] == run[..FrameStart(run)];
    } else {
      assert run[..FrameStart(run)] == run;
    }
  }

  /** Less than two seconds have passed since the last callback returned. */
  predicate InWindow(reports: seq<Report>, now: int) {
    reports != [] && now - reports[|reports| - 1].doneAt < 2 * SECOND
  }

  lemma BitArrives(run: seq<Event>, value: Byte, now: int)
    ensures var run' := run + [Bit(value, now)];
            && Reports(run') == Reports(run)
            && Unread(run') == Unread(run) + (if InWindow(Reports(run), now) then [] else [value])
  {
    var run' := run + [Bit(value, now)];
    assert run'[..|run|] == run;
    var n := FrameStart(run);
    assert FrameStart(run') == n;
    assert run'[..n] == run[..n];
    assert run'[n..] == run[n..] + [Bit(value, now)];
    assert (run[n..] + [Bit(value, now)])[..|run| - n] == run[n..];
    ReportsOfFrame(run);
  }

  lemma TimerFires(run: seq<Event>, now: int, doneAt: int)
    requires Chronological(run + [Timer(now, doneAt)])
    ensures var run' := run + [Timer(now, doneAt)];
            && Unread(run') == []
            && (Debouncing(Reports(run), now) ==> Unread(run) == [])
            && Reports(run') ==
               var d := DecodeFrame(Unread(run));
               if d.Good? then Reports(run) + [Report(Unread(run), d.credential, d.card, now, doneAt)] else Reports(run)
  {
    var run' := run + [Timer(now, doneAt)];
    assert run'[..|run|] == run;
    assert run'[|run'|..] == [];
    if Debouncing(Reports(run), now) {
      NothingHeard(run, now, doneAt);
    }
  }

  /** The branch that throws away collected bits is never needed: bits that arrive while debouncing are not
      collected, and the clock does not run back into a debounce window. */
  lemma NothingHeard(run: seq<Event>, now: int, doneAt: int)
    requires Chronological(run + [Timer(now, doneAt)]) && Debouncing(Reports(run), now)
    ensures Unread(run) == []
  {
    var n := FrameStart(run);
    ReportsOfFrame(run);
    var run' := run + [Timer(now, doneAt)];
    forall i | n <= i < |run|
      ensures run[i].at <= now
    {
      assert run'[i] == run[i] && run'[|run|].at == now;
      assert EndOf(run'[i]) <= run'[|run|].at;
    }
    HeardNothing(run[n..], Reports(run[..n]), now);
  }

  lemma {:induction false} HeardNothing(events: seq<Event>, reports: seq<Report>, now: int)
    requires forall i :: 0 <= i < |events| ==> events[i].Bit? && events[i].at <= now
    requires Debouncing(reports, now)
    ensures Heard(events, reports) == []
  {
    if events != [] {
      HeardNothing(events[..|events| - 1], reports, now);
    }
  }

  /** Consecutive reports start at least the debounce time after the one before was done. */
  lemma {:induction false} ReportsSpaced(run: seq<Event>, i: nat)
    requires Chronological(run) && i + 1 < |Reports(run)|
    ensures Reports(run)[i].doneAt + 2 * SECOND <= Reports(run)[i + 1].at
  {
    var n := |run| - 1;
    var before := Reports(run[..n]);
    if i + 1 < |before| {
      ReportsSpaced(run[..n], i);
    } else {
      assert run == run[..n] + [Timer(run[n].at, run[n].doneAt)];
      TimerFires(run[..n], run[n].at, run[n].doneAt);
    }
  }

  /** Each report carries a frame that decodes to its card. */
  lemma {:induction false} ReportsDecode(run: seq<Event>, i: nat)
    requires i < |Reports(run)|
    ensures var r := Reports(run)[i]; DecodeFrame(r.frame) == Good(r.credential, r.card)
  {
    var n := |run| - 1;
    if i < |Reports(run[..n])| {
      ReportsDecode(run[..n], i);
    }
  }
}
