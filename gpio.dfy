/** The memory-mapped GPIO block of rpi/gpio/gpio.c, the C `DHT11` reader in the
    preamble of rpi/gpio/gpio.go and that file's Go wrappers. The block is an array
    of 32-bit words; every store and every pause is also recorded in order, because
    the set, clear and pull registers are strobes whose effect is the write itself. */
module Gpio {
  import opened Base

  const GpSet0: nat := 7
  const GpClr0: nat := 10
  const GpLev0: nat := 13
  const GpPud: nat := 37
  const GpPudClk0: nat := 38
  /** The mapping is 0xB4 bytes long. */
  const WordCount: nat := 0xB4 / 4

  const ModeInput: bv32 := 0
  const ModeOutput: bv32 := 1
  const ModeAlt0: bv32 := 4
  const ModeAlt1: bv32 := 5
  const ModeAlt2: bv32 := 6
  const ModeAlt3: bv32 := 7
  const ModeAlt4: bv32 := 3
  const ModeAlt5: bv32 := 2

  const PudOff: bv32 := 0
  const PudDown: bv32 := 1
  const PudUp: bv32 := 2

  /** One access to the block, in program order. */
  datatype Access = Store(index: nat, value: bv32) | Pause(usec: nat)

  /** `PI_BANK`: the word offset of a pin's bank, `gpio >> 5`. */
  function Bank(g: nat): nat
  {
    g / 32
  }

  /** `PI_BIT`: the pin's bit in its bank word, `1 << (gpio & 0x1F)`. */
  function PinBit(g: nat): bv32
  {
    (1 as bv32) << ((g % 32) as bv32)
  }

  /** The word holding a pin's 3-bit mode field, `gpio / 10`. */
  function ModeWord(g: nat): nat
  {
    g / 10
  }

  /** The field's offset in that word, `(gpio % 10) * 3`. */
  function ModeShift(g: nat): (s: bv32)
    ensures s <= 27
    ensures s == ((g % 10) * 3) as bv32
  {
    ShiftTable(g % 10);
    FieldOffset(g % 10)
  }

  /** The word after `gpioSetMode` stores `mode` in the field at `shift`. */
  function WithMode(w: bv32, shift: bv32, mode: bv32): bv32
    requires shift <= 27
  {
    (w & !(7 << shift)) | (mode << shift)
  }

  /** The field at `shift`, as `gpioGetMode` reads it. */
  function ModeAt(w: bv32, shift: bv32): (m: bv32)
    requires shift <= 27
    ensures m < 8
  {
    (w >> shift) & 7
  }

  /** Setting a mode below 8 and reading it back gives that mode, and every bit of
      the word outside the field is kept (rpi/gpio/gpio.c:33-51). */
  lemma ModeRoundTrip(w: bv32, shift: bv32, mode: bv32)
    requires shift <= 27 && mode < 8
    ensures ModeAt(WithMode(w, shift, mode), shift) == mode
    ensures WithMode(w, shift, mode) & !(7 << shift) == w & !(7 << shift)
  {
  }

  /** Setting the same field twice keeps only the second mode; fields of different
      pins sharing a word do not interfere. */
  lemma ModeFieldsIndependent(w: bv32, g: nat, h: nat, m: bv32, n: bv32)
    requires ModeWord(g) == ModeWord(h) && g != h && m < 8 && n < 8
    ensures ModeAt(WithMode(WithMode(w, ModeShift(g), m), ModeShift(h), n), ModeShift(g)) == m
    ensures WithMode(WithMode(w, ModeShift(g), m), ModeShift(g), n) == WithMode(w, ModeShift(g), n)
  {
    FieldsApart(g, h);
    FieldsIndependent(w, ModeShift(g), ModeShift(h), m, n);
    FieldOverwrite(w, ModeShift(g), m, n);
  }

  /** Two pins of one word have fields at least three bits apart. */
  lemma FieldsApart(g: nat, h: nat)
    requires ModeWord(g) == ModeWord(h) && g != h
    ensures ModeShift(g) + 3 <= ModeShift(h) || ModeShift(h) + 3 <= ModeShift(g)
  {
    var a, b := g % 10, h % 10;
    assert a != b;
    if a == 0 {} else if a == 1 {} else if a == 2 {} else if a == 3 {} else if a == 4 {}
    else if a == 5 {} else if a == 6 {} else if a == 7 {} else if a == 8 {} else {}
  }

  /** The ten field offsets a mode word holds. */
  function FieldOffset(x: nat): bv32
  {
    if x == 0 then 0 else if x == 1 then 3 else if x == 2 then 6 else if x == 3 then 9
    else if x == 4 then 12 else if x == 5 then 15 else if x == 6 then 18
    else if x == 7 then 21 else if x == 8 then 24 else 27
  }

  lemma ShiftTable(x: nat)
    requires x < 10
    ensures (x * 3) as bv32 == FieldOffset(x)
  {
    if x == 0 {} else if x == 1 {} else if x == 2 {} else if x == 3 {} else if x == 4 {}
    else if x == 5 {} else if x == 6 {} else if x == 7 {} else if x == 8 {} else {}
  }

  /** Storing into one field keeps a field at least three bits away. */
  lemma FieldsIndependent(w: bv32, a: bv32, b: bv32, m: bv32, n: bv32)
    requires a <= 27 && b <= 27 && (a + 3 <= b || b + 3 <= a) && m < 8 && n < 8
    ensures ModeAt(WithMode(WithMode(w, a, m), b, n), a) == m
  {
    if a + 3 <= b {
      FieldBelow(w, a, b, m, n);
    } else {
      FieldAbove(w, a, b, m, n);
    }
  }

  lemma FieldBelow(w: bv32, a: bv32, b: bv32, m: bv32, n: bv32)
    requires a <= 27 && b <= 27 && a + 3 <= b && m < 8 && n < 8
    ensures ModeAt(WithMode(WithMode(w, a, m), b, n), a) == m
  {
  }

  lemma FieldAbove(w: bv32, a: bv32, b: bv32, m: bv32, n: bv32)
    requires a <= 27 && b <= 27 && b + 3 <= a && m < 8 && n < 8
    ensures ModeAt(WithMode(WithMode(w, a, m), b, n), a) == m
  {
  }

  /** A second store into a field replaces the first. */
  lemma FieldOverwrite(w: bv32, a: bv32, m: bv32, n: bv32)
    requires a <= 27 && m < 8 && n < 8
    ensures WithMode(WithMode(w, a, m), a, n) == WithMode(w, a, n)
  {
  }

  /** Every mode the header defines fits the 3-bit field. */
  lemma ModesFit()
    ensures ModeInput < 8 && ModeOutput < 8 && ModeAlt0 < 8 && ModeAlt1 < 8
    ensures ModeAlt2 < 8 && ModeAlt3 < 8 && ModeAlt4 < 8 && ModeAlt5 < 8
    ensures |{ModeInput, ModeOutput, ModeAlt0, ModeAlt1, ModeAlt2, ModeAlt3, ModeAlt4, ModeAlt5}| == 8
  {
  }

  /** The word `gpioWrite` strobes: the bank's clear register for level 0, else its set register. */
  function LevelWord(g: nat, level: nat): nat
  {
    if level == 0 then GpClr0 + Bank(g) else GpSet0 + Bank(g)
  }

  /** `gpioRead` of a level word: 1 when the pin's bit is set, else 0. */
  function LevelOf(w: bv32, g: nat): (r: nat)
    ensures r == 0 || r == 1
  {
    if w & PinBit(g) != 0 then 1 else 0
  }

  /** The two strobes of a trigger hit different registers of the same bank. */
  lemma TriggerStrobesDiffer(g: nat, level: nat)
    ensures var second := if level != 0 then 0 else 1;
      LevelWord(g, level) != LevelWord(g, second) &&
      {LevelWord(g, level), LevelWord(g, second)} == {GpSet0 + Bank(g), GpClr0 + Bank(g)}
  {
  }

  /** The pin's bit is a single bit of its bank word. */
  lemma PinBitSingle(g: nat)
    ensures PinBit(g) != 0 && PinBit(g) & (PinBit(g) - 1) == 0
  {
  }

  /** The mapped GPIO block. */
  class Registers {
    var reg: array<bv32>
    /** Every store and pause so far, oldest first. */
    var trace: seq<Access>

    predicate Valid()
      reads this
    {
      reg.Length == WordCount
    }

    /** The block as mapped: `init` is what the words hold at that moment, the
        level words included. */
    constructor (init: seq<bv32>)
      requires |init| == WordCount
      ensures Valid() && fresh(reg) && trace == []
      ensures reg[..] == init
    {
      reg := new bv32[WordCount](i requires 0 <= i < WordCount => init[i]);
      trace := [];
    }

    /** One store to word `i`. */
    method Put(i: nat, v: bv32)
      requires Valid() && i < reg.Length
      modifies this, reg
      ensures Valid() && reg == old(reg)
      ensures reg[..] == old(reg[..])[i := v] && trace == old(trace) + [Store(i, v)]
    {
      reg[i] := v;
      trace := trace + [Store(i, v)];
    }

    /** `usleep`: only recorded. */
    method Sleep(usec: nat)
      modifies this
      ensures reg == old(reg) && trace == old(trace) + [Pause(usec)]
    {
      trace := trace + [Pause(usec)];
    }

    /** `gpioSetMode`. */
    method SetMode(g: nat, mode: bv32)
      requires Valid() && ModeWord(g) < reg.Length
      modifies this, reg
      ensures Valid() && reg == old(reg)
      ensures var w := WithMode(old(reg[ModeWord(g)]), ModeShift(g), mode);
        reg[..] == old(reg[..])[ModeWord(g) := w] && trace == old(trace) + [Store(ModeWord(g), w)]
      ensures mode < 8 ==> ModeAt(reg[ModeWord(g)], ModeShift(g)) == mode
    {
      var i, shift := ModeWord(g), ModeShift(g);
      if mode < 8 {
        ModeRoundTrip(reg[i], shift, mode);
      }
      Put(i, WithMode(reg[i], shift, mode));
    }

    /** `gpioGetMode`. */
    method GetMode(g: nat) returns (m: bv32)
      requires Valid() && ModeWord(g) < reg.Length
      ensures m == ModeAt(reg[ModeWord(g)], ModeShift(g)) && m < 8
    {
      var i, shift := ModeWord(g), ModeShift(g);
      m := (reg[i] >> shift) & 7;
    }

    /** `gpioRead`: the pin's bit in its bank's level register. */
    method Read(g: nat) returns (level: nat)
      requires Valid() && GpLev0 + Bank(g) < reg.Length
      ensures level == LevelOf(reg[GpLev0 + Bank(g)], g)
      ensures level == 1 <==> reg[GpLev0 + Bank(g)] & PinBit(g) != 0
    {
      if reg[GpLev0 + Bank(g)] & PinBit(g) != 0 {
        level := 1;
      } else {
        level := 0;
      }
    }

    /** `gpioWrite`: one strobe of the pin's bit, to the clear register for level 0,
        else to the set register. */
    method Write(g: nat, level: nat)
      requires Valid() && GpClr0 + Bank(g) < reg.Length
      modifies this, reg
      ensures Valid() && reg == old(reg)
      ensures reg[..] == old(reg[..])[LevelWord(g, level) := PinBit(g)]
      ensures trace == old(trace) + [Store(LevelWord(g, level), PinBit(g))]
    {
      if level == 0 {
        Put(GpClr0 + Bank(g), PinBit(g));
      } else {
        Put(GpSet0 + Bank(g), PinBit(g));
      }
    }

    /** `gpioTrigger`: the requested level, a pause, then the opposite level. */
    method Trigger(g: nat, usec: nat, level: nat)
      requires Valid() && GpClr0 + Bank(g) < reg.Length
      modifies this, reg
      ensures Valid() && reg == old(reg)
      ensures var second := if level != 0 then 0 else 1;
        trace == old(trace) + [Store(LevelWord(g, level), PinBit(g)), Pause(usec),
                               Store(LevelWord(g, second), PinBit(g))]
      ensures var second := if level != 0 then 0 else 1;
        reg[..] == old(reg[..])[LevelWord(g, level) := PinBit(g)][LevelWord(g, second) := PinBit(g)]
    {
      Write(g, level);
      Sleep(usec);
      if level != 0 {
        Put(GpClr0 + Bank(g), PinBit(g));
      } else {
        Put(GpSet0 + Bank(g), PinBit(g));
      }
    }

    /** `gpioSetPullUpDown`: latch `pud` into the pull register, clock it into the
        pin, then release both registers. */
    method SetPullUpDown(g: nat, pud: bv32)
      requires Valid() && GpPudClk0 + Bank(g) < reg.Length
      modifies this, reg
      ensures Valid() && reg == old(reg)
      ensures trace == old(trace) + [Store(GpPud, pud), Pause(20), Store(GpPudClk0 + Bank(g), PinBit(g)),
                                     Pause(20), Store(GpPud, 0), Store(GpPudClk0 + Bank(g), 0)]
      ensures reg[..] == old(reg[..])[GpPud := 0][GpPudClk0 + Bank(g) := 0]
      ensures reg[GpPud] == 0 && reg[GpPudClk0 + Bank(g)] == 0
    {
      Put(GpPud, pud);
      Sleep(20);
      Put(GpPudClk0 + Bank(g), PinBit(g));
      Sleep(20);
      Put(GpPud, 0);
      Put(GpPudClk0 + Bank(g), 0);
    }

    /** The start signal of the C `DHT11`: output mode, the line held low for 18 ms,
        input mode, then 20 microseconds for the sensor to answer. */
    method Start(g: nat)
      requires Valid() && ModeWord(g) < reg.Length && GpClr0 + Bank(g) < reg.Length
      modifies this, reg
      ensures Valid() && reg == old(reg)
      ensures var output := WithMode(old(reg[ModeWord(g)]), ModeShift(g), ModeOutput);
        var low := old(reg[..])[ModeWord(g) := output][GpClr0 + Bank(g) := PinBit(g)][GpSet0 + Bank(g) := PinBit(g)];
        var input := WithMode(low[ModeWord(g)], ModeShift(g), ModeInput);
        && reg[..] == low[ModeWord(g) := input]
        && trace == old(trace) + [Store(ModeWord(g), output), Store(GpClr0 + Bank(g), PinBit(g)), Pause(18000),
                                  Store(GpSet0 + Bank(g), PinBit(g)), Store(ModeWord(g), input), Pause(20)]
      ensures forall i :: 0 <= i < reg.Length && i != ModeWord(g) && i != GpClr0 + Bank(g) && i != GpSet0 + Bank(g) ==>
        reg[i] == old(reg[i])
      ensures ModeAt(reg[ModeWord(g)], ModeShift(g)) == ModeInput
    {
      SetMode(g, ModeOutput);
      Trigger(g, 18000, 0);
      SetMode(g, ModeInput);
      Sleep(20);
    }

    /** The C `DHT11` of rpi/gpio/gpio.go: start signal, handshake, 40 pulses into a
        zeroed 5-byte buffer, then the frame check. `durations(k)` is what the k-th
        call of `gpioReadPulse` measures; the handshake takes calls 0 and 1. */
    method Dht11(g: nat, durations: nat -> nat) returns (v: uint16)
      requires Valid() && ModeWord(g) < reg.Length && GpClr0 + Bank(g) < reg.Length
      modifies this, reg
      ensures Valid() && reg == old(reg)
      ensures var output := WithMode(old(reg[ModeWord(g)]), ModeShift(g), ModeOutput);
        var low := old(reg[..])[ModeWord(g) := output][GpClr0 + Bank(g) := PinBit(g)][GpSet0 + Bank(g) := PinBit(g)];
        var input := WithMode(low[ModeWord(g)], ModeShift(g), ModeInput);
        && reg[..] == low[ModeWord(g) := input]
        && trace == old(trace) + [Store(ModeWord(g), output), Store(GpClr0 + Bank(g), PinBit(g)), Pause(18000),
                                  Store(GpSet0 + Bank(g), PinBit(g)), Store(ModeWord(g), input), Pause(20)]
      ensures v == Dht11Value(durations)
    {
      Start(g);
      v := Receive(durations);
    }
  }

  /** The part of the C `DHT11` after its start signal: the handshake, 40 pulses into
      a zeroed 5-byte buffer, then the frame check. */
  method Receive(durations: nat -> nat) returns (v: uint16)
    ensures v == Dht11Value(durations)
  {
    var pulses := new bv8[5](_ => 0);
    if durations(0) > 100 || durations(1) > 100 {
      return 0;
    }
    assert pulses[..] == [0, 0, 0, 0, 0];
    var ok := ReadPulses(durations, 2, 1000, 8 * pulses.Length, pulses);
    var f := pulses[..];
    assert f == Frame(durations);
    if ok && FrameAccepted(f) {
      return Pack(ByteValue(f[0]), ByteValue(f[2]));
    }
    return 0;
  }

  // ---------------------------------------------------------------------------
  // Pulse trains

  /** Pulse `i` of a train measured from call `first` on: high longer than the low before it. */
  predicate PulseBit(durations: nat -> nat, first: nat, i: nat)
  {
    durations(first + 2 * i + 1) > durations(first + 2 * i)
  }

  /** Whether pulse `i` completes: neither half reaches the timeout. */
  predicate PulseCompletes(durations: nat -> nat, first: nat, timeout: nat, i: nat)
  {
    durations(first + 2 * i) < timeout && durations(first + 2 * i + 1) < timeout
  }

  /** Pulses 0..n-1 all complete. */
  predicate AllComplete(durations: nat -> nat, first: nat, timeout: nat, n: nat)
  {
    forall k :: 0 <= k < n ==> PulseCompletes(durations, first, timeout, k)
  }

  /** How many of `count` pulses complete before the first timed-out half. */
  function Completed(durations: nat -> nat, first: nat, timeout: nat, count: nat): (n: nat)
    ensures n <= count
    ensures forall i :: 0 <= i < n ==> PulseCompletes(durations, first, timeout, i)
    ensures n < count ==> !PulseCompletes(durations, first, timeout, n)
  {
    if count == 0 then 0
    else if Completed(durations, first, timeout, count - 1) < count - 1 then Completed(durations, first, timeout, count - 1)
    else if PulseCompletes(durations, first, timeout, count - 1) then count
    else count - 1
  }

  /** The buffer after OR-ing in pulses 0..n-1, pulse i at byte `i >> 3`, bit `7 - (i & 7)`. */
  function OrPulses(init: seq<bv8>, durations: nat -> nat, first: nat, n: nat): (r: seq<bv8>)
    requires n <= 8 * |init|
    ensures |r| == |init|
  {
    if n == 0 then init
    else
      var i := n - 1;
      OrPulse(OrPulses(init, durations, first, i), i, PulseBit(durations, first, i))
  }

  /** `pulses[i >> 3] |= (pulse > pivot) << (7 - (i & 7))`. */
  function OrPulse(prev: seq<bv8>, i: nat, long: bool): (next: seq<bv8>)
    requires i / 8 < |prev|
    ensures |next| == |prev|
  {
    prev[i / 8 := OrBit(prev[i / 8], i, long)]
  }

  /** The byte after OR-ing in pulse `i` at bit `7 - (i & 7)`. */
  function OrBit(v: bv8, i: nat, long: bool): bv8
  {
    v | (if long then Mask(7 - i % 8) else 0)
  }

  /** OR-ing with a mask sets exactly that bit. */
  lemma OrMaskBit(v: bv8, x: nat, y: nat)
    requires x < 8 && y < 8
    ensures BitAt(v | Mask(x), y) <==> BitAt(v, y) || x == y
  {
    if x == 0 {} else if x == 1 {} else if x == 2 {} else if x == 3 {}
    else if x == 4 {} else if x == 5 {} else if x == 6 {} else {}
  }

  /** One OR step sets bit `7 - i%8` of byte `i/8` when the pulse is long, and no other bit. */
  lemma OrStep(prev: seq<bv8>, i: nat, bit: bool, k: nat, r: nat)
    requires i / 8 < |prev| && k < |prev| && r < 8
    ensures BitAt(OrPulse(prev, i, bit)[k], 7 - r) <==> BitAt(prev[k], 7 - r) || (bit && 8 * k + r == i)
  {
    if k == i / 8 {
      if bit {
        OrMaskBit(prev[k], 7 - i % 8, 7 - r);
        assert (7 - i % 8 == 7 - r) <==> (8 * k + r == i);
      } else {
        assert prev[k] | 0 == prev[k];
      }
    }
  }

  /** What `OrPulses` holds: bit `7 - r` of byte k is set iff it was set before or
      pulse `8k + r` was read and was long (most significant bit first). */
  lemma {:induction false} OrPulsesBits(init: seq<bv8>, durations: nat -> nat, first: nat, n: nat, k: nat, r: nat)
    requires n <= 8 * |init| && k < |init| && r < 8
    ensures BitAt(OrPulses(init, durations, first, n)[k], 7 - r) <==>
      BitAt(init[k], 7 - r) || (8 * k + r < n && PulseBit(durations, first, 8 * k + r))
  {
    if n > 0 {
      var i := n - 1;
      OrPulsesBits(init, durations, first, i, k, r);
      OrStep(OrPulses(init, durations, first, i), i, PulseBit(durations, first, i), k, r);
    }
  }

  /** Into a zeroed buffer, the pulses come back out in order: pulse i is bit
      `7 - (i & 7)` of byte `i >> 3`. */
  lemma PulsesRoundTrip(durations: nat -> nat, first: nat, n: nat, size: nat, i: nat)
    requires n <= 8 * size && i < n
    ensures var buf := OrPulses(seq(size, _ => 0), durations, first, n);
      BitAt(buf[i / 8], 7 - i % 8) <==> PulseBit(durations, first, i)
  {
    var zero: seq<bv8> := seq(size, _ => 0);
    OrPulsesBits(zero, durations, first, n, i / 8, i % 8);
    assert 8 * (i / 8) + i % 8 == i;
    assert zero[i / 8] == 0;
  }

  /** `gpioReadPulses`: for each pulse, measure the low half (the pivot) and the high
      half; a half reaching the timeout aborts with 0; otherwise the pulse is a 1
      when the high half is longer, OR-ed in most significant bit first. */
  method ReadPulses(durations: nat -> nat, first: nat, timeout: nat, count: nat, pulses: array<bv8>) returns (ok: bool)
    requires count <= 8 * pulses.Length
    modifies pulses
    ensures ok <==> Completed(durations, first, timeout, count) == count
    ensures pulses[..] == OrPulses(old(pulses[..]), durations, first, Completed(durations, first, timeout, count))
  {
    ghost var init := pulses[..];
    var i := 0;
    while i < count
      invariant i <= count
      invariant AllComplete(durations, first, timeout, i)
      invariant pulses[..] == OrPulses(init, durations, first, i)
    {
      var done := ReadPulse(durations, first, timeout, i, pulses);
      if !done {
        CompletedAt(durations, first, timeout, count, i);
        return false;
      }
      i := i + 1;
    }
    CompletedAt(durations, first, timeout, count, count);
    return true;
  }

  /** One pulse of `gpioReadPulses`: the pivot, then the pulse; either reaching the
      timeout stops with the buffer untouched, else the bit is OR-ed in. */
  method ReadPulse(durations: nat -> nat, first: nat, timeout: nat, i: nat, pulses: array<bv8>) returns (done: bool)
    requires i / 8 < pulses.Length
    modifies pulses
    ensures done <==> PulseCompletes(durations, first, timeout, i)
    ensures done ==> pulses[..] == OrPulse(old(pulses[..]), i, PulseBit(durations, first, i))
    ensures !done ==> pulses[..] == old(pulses[..])
  {
    var pivot := durations(first + 2 * i);
    if pivot >= timeout {
      return false;
    }
    var pulse := durations(first + 2 * i + 1);
    if pulse >= timeout {
      return false;
    }
    OrInto(pulses, i, pulse > pivot);
    return true;
  }

  /** `pulses[i >> 3] |= (pulse > pivot) << (7 - (i & 7))` on the buffer itself. */
  method OrInto(pulses: array<bv8>, i: nat, long: bool)
    requires i / 8 < pulses.Length
    modifies pulses
    ensures pulses[..] == OrPulse(old(pulses[..]), i, long)
  {
    var offset := i / 8;
    pulses[offset] := OrBit(pulses[offset], i, long);
  }

  /** `Completed` is the index of the first pulse that does not complete. */
  lemma {:induction false} CompletedAt(durations: nat -> nat, first: nat, timeout: nat, count: nat, n: nat)
    requires n <= count
    requires AllComplete(durations, first, timeout, n)
    requires n < count ==> !PulseCompletes(durations, first, timeout, n)
    ensures Completed(durations, first, timeout, count) == n
  {
    if count > 0 && n < count {
      if n < count - 1 {
        CompletedAt(durations, first, timeout, count - 1, n);
      } else {
        CompletedAt(durations, first, timeout, count - 1, n);
      }
    } else if count > 0 {
      CompletedAt(durations, first, timeout, count - 1, count - 1);
    }
  }

  /** The five bytes the C `DHT11` receives after its handshake. */
  function Frame(durations: nat -> nat): (f: seq<bv8>)
    ensures |f| == 5
  {
    OrPulses([0, 0, 0, 0, 0], durations, 2, Completed(durations, 2, 1000, 40))
  }

  /** The frame check of the C `DHT11`: the sum of the first four bytes, in `int`
      without wrap-around, must equal the fifth. */
  predicate FrameAccepted(f: seq<bv8>)
    requires |f| == 5
  {
    ByteValue(f[0]) + ByteValue(f[1]) + ByteValue(f[2]) + ByteValue(f[3]) == ByteValue(f[4])
  }

  /** A `uint8_t` as a number. */
  function ByteValue(b: bv8): byte
  {
    b as int
  }

  /** The value the C `DHT11` returns: 0 for a failed handshake, a timed-out pulse or
      a bad checksum, else humidity in the high byte and temperature in the low one. */
  function Dht11Value(durations: nat -> nat): (v: uint16)
    ensures v != 0 ==> durations(0) <= 100 && durations(1) <= 100
    ensures (durations(0) <= 100 && durations(1) <= 100 &&
             Completed(durations, 2, 1000, 40) == 40 && FrameAccepted(Frame(durations))) ==>
      v == Pack(ByteValue(Frame(durations)[0]), ByteValue(Frame(durations)[2]))
    ensures v != 0 ==> Completed(durations, 2, 1000, 40) == 40 && FrameAccepted(Frame(durations))
  {
    if durations(0) > 100 || durations(1) > 100 then 0
    else if Completed(durations, 2, 1000, 40) == 40 && FrameAccepted(Frame(durations)) then
      Pack(ByteValue(Frame(durations)[0]), ByteValue(Frame(durations)[2]))
    else 0
  }

  /** `(pulses[0] << 8) + pulses[2]`. */
  function Pack(high: byte, low: byte): uint16
  {
    high * 256 + low
  }

  /** The Go `DHT11`: `(byte(v >> 8), byte(v & 255))`. */
  function Unpack(v: uint16): (hl: (byte, byte))
  {
    (ToByte(v / 256), ToByte(v % 256))
  }

  /** The Go side recovers both bytes the C side packed (rpi/gpio/gpio.go:20, 95-99). */
  lemma PackUnpack(high: byte, low: byte)
    ensures Unpack(Pack(high, low)) == (high, low)
  {
  }

  /** The packed value is 0 only for a frame whose two reported bytes are both 0, so
      such a reading cannot be told apart from a failure. */
  lemma ZeroIsAmbiguous(high: byte, low: byte)
    ensures Pack(high, low) == 0 <==> high == 0 && low == 0
  {
  }

  // ---------------------------------------------------------------------------
  // Go wrappers

  /** `Pin.Write`: true is level 1, false level 0. */
  function LevelValue(value: bool): (level: nat)
    ensures level == 0 <==> !value
    ensures level <= 1
  {
    if value then 1 else 0
  }

  /** `Pin.Read`: true iff `gpioRead` returned a positive level. */
  function PinRead(level: int): (b: bool)
    ensures b <==> level > 0
  {
    level > 0
  }

  /** `Pin.Trigger`: the duration in whole microseconds, `t.Nanoseconds()/1000`
      truncated toward zero, then converted to C `unsigned`. */
  function TriggerMicros(nanoseconds: int): (usec: uint32)
    ensures 0 <= nanoseconds < 1000 * 0x1_0000_0000 ==> usec == nanoseconds / 1000
    ensures -1000 < nanoseconds < 1000 ==> usec == 0
  {
    ToUint32(TruncDiv(nanoseconds, 1000))
  }

  /** Writing through the Go wrapper strobes the set register for true and the clear
      register for false (rpi/gpio/gpio.go:77-83, rpi/gpio/gpio.c:74-78). */
  lemma WrapperWriteRegister(g: nat, value: bool)
    ensures LevelWord(g, LevelValue(value)) == if value then GpSet0 + Bank(g) else GpClr0 + Bank(g)
  {
  }
}
