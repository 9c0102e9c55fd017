/** The LIDAR-Lite v2 driver of rpi/lidar/lidar.go. The sensor sits on an external
    I2C bus whose replies are given by call number: the driver's k-th bus call
    (counting every read and write) gets `readByte(k)`, `readWord(k)` or `write(k)`.
    Every call is recorded in `ops`. Logging and the sleeps between attempts are
    not modelled. */
module Lidar {
  import opened Base

  const MaxAttemptNumber: nat := 50

  // Bits of the status register, `1 << iota` from 0 to 7.
  const NotReady: bv8 := 0x01
  const RefOverflow: bv8 := 0x02
  const SignalOverflow: bv8 := 0x04
  const SignalNotValid: bv8 := 0x08
  const SecondaryReturn: bv8 := 0x10
  const Health: bv8 := 0x20
  const ErrorDetection: bv8 := 0x40
  const EyeSafe: bv8 := 0x80

  const StatusRegister: byte := 0x01
  /** 0x0f with the auto-increment bit, so a word read returns both distance bytes. */
  const DistanceRegister: byte := 0x8f

  const ReadLimit := "Read limit occurs"
  const WriteLimit := "Write limit occurs"
  const CountingError := "Error in counting detected"
  const NoLimiting := "Automatic limiting doesn't occurs"

  /** What the bus answers to the k-th call. */
  datatype Replies = Replies(readByte: nat -> Result<bv8, Error>,
                             readWord: nat -> Result<uint16, Error>,
                             write: nat -> Option<Error>)

  function Pow2(k: nat): nat
  {
    if k == 0 then 1 else 2 * Pow2(k - 1)
  }

  /** The eight status flags, in declaration order. */
  function Flags(): seq<bv8>
  {
    [NotReady, RefOverflow, SignalOverflow, SignalNotValid, SecondaryReturn, Health, ErrorDetection, EyeSafe]
  }

  /** Flag k is bit k (rpi/lidar/lidar.go:27-56). */
  lemma FlagsAreBits()
    ensures forall k :: 0 <= k < 8 ==> Flags()[k] as int == Pow2(k)
  {
    assert Pow2(0) == 1 && Pow2(1) == 2 && Pow2(2) == 4 && Pow2(3) == 8;
    assert Pow2(4) == 16 && Pow2(5) == 32 && Pow2(6) == 64 && Pow2(7) == 128;
  }

  /** `st & flag != 0`. */
  predicate Flagged(st: bv8, flag: bv8)
  {
    st & flag != 0
  }

  /** Whether `Read` goes on to read the register after status `st`: the health bit
      is tested first, so bad health reads at once, even with an error detected;
      otherwise there must be no error and automatic limiting must have occurred. */
  predicate ReadDecision(st: bv8)
  {
    !Flagged(st, Health) || (!Flagged(st, ErrorDetection) && Flagged(st, SignalOverflow))
  }

  /** The order of the tests matters: bad health with an error detected reads, good
      health with an error detected does not, nor does good health without limiting. */
  lemma ReadDecisionExamples()
    ensures ReadDecision(ErrorDetection) && ReadDecision(0)
    ensures !ReadDecision(Health + ErrorDetection + SignalOverflow)
    ensures !ReadDecision(Health) && ReadDecision(Health + SignalOverflow)
  {
  }

  /** Bus calls and the result they lead to. */
  datatype Attempts<T> = Attempts(result: T, ops: seq<BusOp>)

  function Then<T>(ops: seq<BusOp>, o: Attempts<T>): (r: Attempts<T>)
    ensures r.result == o.result && |r.ops| == |ops| + |o.ops|
  {
    Attempts(o.result, ops + o.ops)
  }

  /** One attempt of `Read` at call `n`: the status read, and when it succeeds and
      passes `ReadDecision`, the register read; the value if that succeeds. */
  function ReadAttempt(bus: Replies, n: nat, addr: byte, register: byte): (a: Attempts<Option<bv8>>)
    ensures 1 <= |a.ops| <= 2 && a.ops[0] == ReadByte(addr, StatusRegister)
    ensures |a.ops| == 2 <==> bus.readByte(n).Ok? && ReadDecision(bus.readByte(n).value)
    ensures |a.ops| == 2 ==>
      && a.ops[1] == ReadByte(addr, register)
      && a.result == (if bus.readByte(n + 1).Ok? then Some(bus.readByte(n + 1).value) else None)
    ensures |a.ops| == 1 ==> a.result.None?
  {
    var status := ReadByte(addr, StatusRegister);
    var st := bus.readByte(n);
    if st.Ok? && ReadDecision(st.value) then
      var v := bus.readByte(n + 1);
      Attempts(if v.Ok? then Some(v.value) else None, [status, ReadByte(addr, register)])
    else Attempts(None, [status])
  }

  /** `Read` that started at call `start`, has made the calls `made` so far and has
      `left` attempts to go; a successful register read ends the loop. */
  function ReadLoop(bus: Replies, start: nat, addr: byte, register: byte, left: nat, made: seq<BusOp>): Attempts<Result<bv8, Error>>
    decreases left
  {
    if left == 0 then Attempts(Err(Error(ReadLimit)), made)
    else
      var a := ReadAttempt(bus, start + |made|, addr, register);
      if a.result.Some? then Attempts(Ok(a.result.value), made + a.ops)
      else ReadLoop(bus, start, addr, register, left - 1, made + a.ops)
  }

  /** Go's `(val, err)` pair for a read result: the byte and no error, or 0 and the error. */
  function ReadReturn(r: Result<bv8, Error>): (p: (bv8, Option<Error>))
    ensures r.Ok? <==> p.1.None?
    ensures r.Ok? ==> p.0 == r.value
    ensures r.Err? ==> p == (0, Some(r.error))
  {
    if r.Ok? then (r.value, None) else (0, Some(r.error))
  }

  /** Every attempt makes one or two calls, and the calls made before are kept; the
      loop fails only with the limit error, after at least one status read per
      attempt (rpi/lidar/lidar.go:91-117). */
  lemma {:induction false} ReadLoopBounded(bus: Replies, start: nat, addr: byte, register: byte, left: nat, made: seq<BusOp>)
    ensures var o := ReadLoop(bus, start, addr, register, left, made);
      |made| <= |o.ops| <= |made| + 2 * left && o.ops[..|made|] == made &&
      (o.result.Err? ==> o.result == Err(Error(ReadLimit)) && |made| + left <= |o.ops|)
    decreases left
  {
    if left > 0 {
      var a := ReadAttempt(bus, start + |made|, addr, register);
      if a.result.None? {
        ReadLoopBounded(bus, start, addr, register, left - 1, made + a.ops);
        assert (made + a.ops)[..|made|] == made;
      } else {
        assert (made + a.ops)[..|made|] == made;
      }
    }
  }

  /** A value comes back only from a successful register read, made right after a
      successful status read that passed `ReadDecision`; call k of the loop is
      `ops[k - start]`. */
  lemma {:induction false} ReadLoopOk(bus: Replies, start: nat, addr: byte, register: byte, left: nat, made: seq<BusOp>)
    ensures var o := ReadLoop(bus, start, addr, register, left, made);
      var m := |o.ops|;
      o.result.Ok? ==>
        m >= |made| + 2 && o.ops[m - 2] == ReadByte(addr, StatusRegister) && o.ops[m - 1] == ReadByte(addr, register) &&
        bus.readByte(start + m - 2).Ok? && ReadDecision(bus.readByte(start + m - 2).value) &&
        bus.readByte(start + m - 1) == Ok(o.result.value)
    decreases left
  {
    if left > 0 {
      var a := ReadAttempt(bus, start + |made|, addr, register);
      if a.result.None? {
        ReadLoopOk(bus, start, addr, register, left - 1, made + a.ops);
      }
    }
  }

  /** How many attempts of `Read` the calls `ops[i..]` make up, call k being
      `ops[k - start]`, when they have its shape: each a status read, followed by a
      read of `register` exactly when that status was read and passed `ReadDecision`. */
  function GatedCount(bus: Replies, start: nat, addr: byte, register: byte, ops: seq<BusOp>, i: nat): Option<nat>
    requires i <= |ops|
    decreases |ops| - i
  {
    if i == |ops| then Some(0)
    else if ops[i] != ReadByte(addr, StatusRegister) then None
    else if bus.readByte(start + i).Ok? && ReadDecision(bus.readByte(start + i).value) then
      if i + 1 == |ops| || ops[i + 1] != ReadByte(addr, register) then None
      else match GatedCount(bus, start, addr, register, ops, i + 2)
        case None => None
        case Some(k) => Some(k + 1)
    else match GatedCount(bus, start, addr, register, ops, i + 1)
      case None => None
      case Some(k) => Some(k + 1)
  }

  /** Every register read of the loop, failed or not, comes right after a status read
      that succeeded and passed `ReadDecision`; the loop makes at most `left` status
      reads, and exactly `left` when it fails (rpi/lidar/lidar.go:91-117). */
  lemma {:induction false} ReadLoopGated(bus: Replies, start: nat, addr: byte, register: byte, left: nat, made: seq<BusOp>)
    ensures var o := ReadLoop(bus, start, addr, register, left, made);
      && |made| <= |o.ops|
      && var c := GatedCount(bus, start, addr, register, o.ops, |made|);
         c.Some? && c.value <= left && (o.result.Err? ==> c.value == left)
    decreases left
  {
    var o := ReadLoop(bus, start, addr, register, left, made);
    if left > 0 {
      var a := ReadAttempt(bus, start + |made|, addr, register);
      if a.result.Some? {
        assert o.ops == made + a.ops;
        assert GatedCount(bus, start, addr, register, o.ops, |made| + 2) == Some(0);
      } else {
        var made' := made + a.ops;
        assert o == ReadLoop(bus, start, addr, register, left - 1, made');
        ReadLoopGated(bus, start, addr, register, left - 1, made');
        ReadLoopBounded(bus, start, addr, register, left - 1, made');
        assert o.ops[|made|] == made'[|made|] == a.ops[0];
        assert |a.ops| == 2 ==> o.ops[|made| + 1] == made'[|made| + 1] == a.ops[1];
      }
    }
  }

  /** With a status that never passes, the register is never read: `left` status
      reads and the limit error. */
  lemma {:induction false} ReadNeverPasses(bus: Replies, start: nat, addr: byte, register: byte, left: nat, made: seq<BusOp>)
    requires forall k :: start + |made| <= k < start + |made| + left ==>
      bus.readByte(k).Err? || !ReadDecision(bus.readByte(k).value)
    ensures ReadLoop(bus, start, addr, register, left, made) ==
      Attempts(Err(Error(ReadLimit)), made + Repeat(ReadByte(addr, StatusRegister), left))
    decreases left
  {
    if left == 0 {
      assert made + Repeat(ReadByte(addr, StatusRegister), left) == made;
    } else {
      var status := ReadByte(addr, StatusRegister);
      ReadNeverPasses(bus, start, addr, register, left - 1, made + [status]);
      RepeatSnoc(made, status, left - 1);
    }
  }

  /** The status is read and shows the sensor ready for a write. */
  predicate Ready(r: Result<bv8, Error>)
  {
    r.Ok? && !Flagged(r.value, NotReady)
  }

  /** One attempt of `WriteByteToRegister` at call `n`: the status read, and when it
      succeeds without the busy bit, the write and its result. */
  function WriteAttempt(bus: Replies, n: nat, addr: byte, register: byte, value: byte): (a: Attempts<Option<Option<Error>>>)
    ensures |a.ops| == if a.result.Some? then 2 else 1
  {
    var status := ReadByte(addr, StatusRegister);
    var st := bus.readByte(n);
    if Ready(st) then
      Attempts(Some(bus.write(n + 1)), [status, WriteByte(addr, register, value)])
    else Attempts(None, [status])
  }

  /** `WriteByteToRegister` that started at call `start` and has made the calls
      `made`: status reads until one succeeds without the busy bit, then exactly
      one write whose result is returned as is. */
  function WriteLoop(bus: Replies, start: nat, addr: byte, register: byte, value: byte, left: nat, made: seq<BusOp>): Attempts<Option<Error>>
    decreases left
  {
    if left == 0 then Attempts(Some(Error(WriteLimit)), made)
    else
      var a := WriteAttempt(bus, start + |made|, addr, register, value);
      if a.result.Some? then Attempts(a.result.value, made + a.ops)
      else WriteLoop(bus, start, addr, register, value, left - 1, made + a.ops)
  }

  /** How many of the `left` status reads from call `n` on come before the first
      ready one (`left` when none is ready). */
  function FirstReady(bus: Replies, n: nat, left: nat): (j: nat)
    ensures j <= left
    ensures forall k :: n <= k < n + j ==> !Ready(bus.readByte(k))
    ensures j < left ==> Ready(bus.readByte(n + j))
    decreases left
  {
    if left == 0 || Ready(bus.readByte(n)) then 0 else 1 + FirstReady(bus, n + 1, left - 1)
  }

  /** The write loop reads the status until the first ready one, then writes once
      and returns that write's result unretried; with no ready status it makes
      `left` status reads and fails with the limit error (rpi/lidar/lidar.go:126-140). */
  lemma {:induction false} WriteLoopShape(bus: Replies, start: nat, addr: byte, register: byte, value: byte, left: nat, made: seq<BusOp>)
    ensures var n := start + |made|;
      var j := FirstReady(bus, n, left);
      var status := ReadByte(addr, StatusRegister);
      WriteLoop(bus, start, addr, register, value, left, made) ==
        if j == left then Attempts(Some(Error(WriteLimit)), made + Repeat(status, left))
        else Attempts(bus.write(n + j + 1), made + Repeat(status, j) + [status, WriteByte(addr, register, value)])
  {
    var n := start + |made|;
    var j := FirstReady(bus, n, left);
    var status := ReadByte(addr, StatusRegister);
    SkipBusy(bus, start, addr, register, value, left, made, j);
    var rest := made + Repeat(status, j);
    if j == left {
      assert WriteLoop(bus, start, addr, register, value, 0, rest) == Attempts(Some(Error(WriteLimit)), rest);
    } else {
      assert start + |rest| == n + j;
      assert WriteAttempt(bus, n + j, addr, register, value).result == Some(bus.write(n + j + 1));
    }
  }

  /** `j` busy status reads in a row cost `j` attempts and leave the rest of the loop. */
  lemma {:induction false} SkipBusy(bus: Replies, start: nat, addr: byte, register: byte, value: byte, left: nat, made: seq<BusOp>, j: nat)
    requires j <= left
    requires forall k :: start + |made| <= k < start + |made| + j ==> !Ready(bus.readByte(k))
    ensures WriteLoop(bus, start, addr, register, value, left, made) ==
      WriteLoop(bus, start, addr, register, value, left - j, made + Repeat(ReadByte(addr, StatusRegister), j))
    decreases j
  {
    var status := ReadByte(addr, StatusRegister);
    if j == 0 {
      assert made + Repeat(status, 0) == made;
    } else {
      assert !Ready(bus.readByte(start + |made|));
      SkipBusy(bus, start, addr, register, value, left - 1, made + [status], j - 1);
      RepeatSnoc(made, status, j - 1);
    }
  }

  /** `m` copies of `x`. */
  function Repeat<T>(x: T, m: nat): (r: seq<T>)
    ensures |r| == m && forall i :: 0 <= i < m ==> r[i] == x
  {
    if m == 0 then [] else [x] + Repeat(x, m - 1)
  }

  /** One more copy of `x` before `m` copies of it is `m + 1` copies. */
  lemma RepeatSnoc<T>(s: seq<T>, x: T, m: nat)
    ensures (s + [x]) + Repeat(x, m) == s + Repeat(x, m + 1)
  {
    AppendAssoc(s, [x], Repeat(x, m));
  }

  /** One status read of the measurement: `distanceContinuous`. */
  function Measure(bus: Replies, n: nat, addr: byte): Attempts<(int, Option<Error>)>
  {
    var status := ReadByte(addr, StatusRegister);
    var st := bus.readByte(n);
    if st.Err? then Attempts((-1, Some(st.error)), [status])
    else if !Flagged(st.value, Health) || (!Flagged(st.value, ErrorDetection) && Flagged(st.value, SignalOverflow)) then
      var w := bus.readWord(n + 1);
      Attempts(if w.Ok? then (w.value as int, None) else (-1, Some(w.error)), [status, ReadWord(addr, DistanceRegister)])
    else if Flagged(st.value, ErrorDetection) then Attempts((-1, Some(Error(CountingError))), [status])
    else Attempts((-1, Some(Error(NoLimiting))), [status])
  }

  /** A measurement is a distance in 0..65535 with no error, or -1 with an error; the
      distance word is read exactly when the status passes the same classification
      `Read` uses, and the distance is that word (rpi/lidar/lidar.go:290-317). */
  lemma MeasureResult(bus: Replies, n: nat, addr: byte)
    ensures var o := Measure(bus, n, addr);
      var (d, err) := o.result;
      -1 <= d < 0x1_0000 && (d >= 0 <==> err.None?) &&
      1 <= |o.ops| <= 2 && o.ops[0] == ReadByte(addr, StatusRegister) &&
      (|o.ops| == 2 <==> bus.readByte(n).Ok? && ReadDecision(bus.readByte(n).value)) &&
      (err.None? ==> |o.ops| == 2 && o.ops[1] == ReadWord(addr, DistanceRegister) && bus.readWord(n + 1) == Ok(d))
  {
  }

  /** A status with an error detected and good health is reported as a counting
      error, one with good health and no limiting as missing limiting. */
  lemma MeasureErrors(bus: Replies, n: nat, addr: byte)
    requires bus.readByte(n).Ok? && Flagged(bus.readByte(n).value, Health)
    ensures var st := bus.readByte(n).value;
      (Flagged(st, ErrorDetection) ==> Measure(bus, n, addr).result == (-1, Some(Error(CountingError)))) &&
      (!Flagged(st, ErrorDetection) && !Flagged(st, SignalOverflow) ==>
        Measure(bus, n, addr).result == (-1, Some(Error(NoLimiting))))
  {
  }

  /** A command to register 0x00 through the status loop, then the measurement. */
  function CommandThenMeasure(bus: Replies, n: nat, addr: byte, command: byte, attempts: nat): Attempts<(int, Option<Error>)>
  {
    var w := WriteLoop(bus, n, addr, 0x00, command, attempts, []);
    if w.result.Some? then Attempts((-1, w.result), w.ops)
    else Then(w.ops, Measure(bus, n + |w.ops|, addr))
  }

  /** `Distance`: in continuous mode only the measurement; otherwise first the
      command 0x04 (with DC stabilisation) or 0x03 to register 0x00. */
  function DistanceSpec(bus: Replies, n: nat, addr: byte, continuous: bool, stabilize: bool, attempts: nat): Attempts<(int, Option<Error>)>
  {
    if continuous then Measure(bus, n, addr)
    else CommandThenMeasure(bus, n, addr, if stabilize then 0x04 else 0x03, attempts)
  }

  /** Continuous mode never writes a command; otherwise the command is written (or
      the write loop gives up) before the status of the measurement is read, and a
      failed command gives -1 (rpi/lidar/lidar.go:175-201). */
  lemma DistanceCommand(bus: Replies, n: nat, addr: byte, continuous: bool, stabilize: bool, attempts: nat)
    ensures var o := DistanceSpec(bus, n, addr, continuous, stabilize, attempts);
      (continuous ==> forall k :: 0 <= k < |o.ops| ==> !o.ops[k].WriteByte?) &&
      (!continuous ==>
        var w := WriteLoop(bus, n, addr, 0x00, if stabilize then 0x04 else 0x03, attempts, []);
        o.ops[..|w.ops|] == w.ops && (w.result.Some? ==> o.result == (-1, w.result)))
  {
    if !continuous {
      var w := WriteLoop(bus, n, addr, 0x00, if stabilize then 0x04 else 0x03, attempts, []);
      var o := DistanceSpec(bus, n, addr, continuous, stabilize, attempts);
      assert o.ops[..|w.ops|] == w.ops;
    }
  }

  /** The four writes of `BeginContinuous`, in order. */
  function ContinuousWrites(addr: byte, modePinLow: bool, interval: byte, readings: byte): seq<BusOp>
  {
    [WriteByte(addr, 0x45, interval), WriteByte(addr, 0x04, if modePinLow then 0x21 else 0x20),
     WriteByte(addr, 0x11, readings), WriteByte(addr, 0x00, 0x04)]
  }

  /** `Velocity` once the velocity mode is set: the direct command 0x04 to register
      0x00 at call `n`, then `Read(0x09)`. */
  function VelocityAfterMode(bus: Replies, n: nat, addr: byte, attempts: nat): Attempts<(int, Option<Error>)>
  {
    var command := WriteByte(addr, 0x00, 0x04);
    if bus.write(n).Some? then Attempts((-1, bus.write(n)), [command])
    else
      var r := ReadLoop(bus, n + 1, addr, 0x09, attempts, []);
      Attempts(if r.result.Ok? then (r.result.value as int, None) else (-1, Some(r.result.error)), [command] + r.ops)
  }

  /** `Velocity`: velocity mode 0xa0 to register 0x04 through the status loop. */
  function VelocitySpec(bus: Replies, n: nat, addr: byte, attempts: nat): Attempts<(int, Option<Error>)>
  {
    var w := WriteLoop(bus, n, addr, 0x04, 0xa0, attempts, []);
    if w.result.Some? then Attempts((-1, w.result), w.ops)
    else Then(w.ops, VelocityAfterMode(bus, n + |w.ops|, addr, attempts))
  }

  /** A velocity is a value read from register 0x09 (0..255: the signed conversion
      is left to the caller) with no error, or -1 with an error (rpi/lidar/lidar.go:208-231). */
  lemma VelocityRange(bus: Replies, n: nat, addr: byte, attempts: nat)
    ensures var o := VelocitySpec(bus, n, addr, attempts);
      -1 <= o.result.0 < 0x100 && (o.result.0 >= 0 <==> o.result.1.None?)
  {
  }

  /** After the mode write, the command comes first; register 0x09 is read, as the
      last call, only after the command succeeded, and a velocity is the byte that
      read returned. */
  lemma VelocityAfterModeOrder(bus: Replies, n: nat, addr: byte, attempts: nat)
    ensures var a := VelocityAfterMode(bus, n, addr, attempts);
      |a.ops| >= 1 && a.ops[0] == WriteByte(addr, 0x00, 0x04) &&
      (bus.write(n).Some? ==> |a.ops| == 1 && a.result == (-1, bus.write(n)))
    ensures var a := VelocityAfterMode(bus, n, addr, attempts);
      a.result.1.None? ==>
        && bus.write(n).None? && |a.ops| >= 3 && a.ops[|a.ops| - 1] == ReadByte(addr, 0x09)
        && bus.readByte(n + |a.ops| - 1).Ok? && bus.readByte(n + |a.ops| - 1).value as int == a.result.0
  {
    if bus.write(n).None? {
      var r := ReadLoop(bus, n + 1, addr, 0x09, attempts, []);
      var a := VelocityAfterMode(bus, n, addr, attempts);
      assert a.ops == [WriteByte(addr, 0x00, 0x04)] + r.ops;
      if r.result.Ok? {
        ReadLoopOk(bus, n + 1, addr, 0x09, attempts, []);
        assert a.ops[|a.ops| - 1] == r.ops[|r.ops| - 1];
        assert n + |a.ops| - 1 == n + 1 + |r.ops| - 1;
      }
    }
  }

  /** The measurement command is written only after the mode write succeeded
      (rpi/lidar/lidar.go:208-231). */
  lemma VelocityOrder(bus: Replies, n: nat, addr: byte, attempts: nat)
    ensures var o := VelocitySpec(bus, n, addr, attempts);
      var w := WriteLoop(bus, n, addr, 0x04, 0xa0, attempts, []);
      o.ops[..|w.ops|] == w.ops && (w.result.Some? ==> o == Attempts((-1, w.result), w.ops))
    ensures var o := VelocitySpec(bus, n, addr, attempts);
      var w := WriteLoop(bus, n, addr, 0x04, 0xa0, attempts, []);
      w.result.None? ==>
        && |o.ops| > |w.ops| && o.ops[|w.ops|] == WriteByte(addr, 0x00, 0x04)
        && o == Then(w.ops, VelocityAfterMode(bus, n + |w.ops|, addr, attempts))
  {
    var w := WriteLoop(bus, n, addr, 0x04, 0xa0, attempts, []);
    var o := VelocitySpec(bus, n, addr, attempts);
    if w.result.None? {
      VelocityAfterModeOrder(bus, n + |w.ops|, addr, attempts);
      assert o.ops[..|w.ops|] == w.ops;
    }
  }

  /** A LIDAR-Lite on the bus. */
  class Lidar {
    const address: byte
    const bus: Replies
    /** `MaxAttemptNumber`, kept per sensor so that the retry bound stays symbolic
        in the proofs. */
    const attempts: nat
    var continuousMode: bool
    /** Every bus call so far, oldest first. */
    var ops: seq<BusOp>

    constructor (address: byte, bus: Replies)
      ensures this.address == address && this.bus == bus && attempts == MaxAttemptNumber
      ensures !continuousMode && ops == []
    {
      this.address := address;
      this.bus := bus;
      attempts := MaxAttemptNumber;
      continuousMode := false;
      ops := [];
    }

    method ReadByteFromReg(reg: byte) returns (r: Result<bv8, Error>)
      modifies this
      ensures ops == old(ops) + [ReadByte(address, reg)] && r == bus.readByte(|old(ops)|)
      ensures continuousMode == old(continuousMode)
    {
      r := bus.readByte(|ops|);
      ops := ops + [ReadByte(address, reg)];
    }

    method ReadWordFromReg(reg: byte) returns (r: Result<uint16, Error>)
      modifies this
      ensures ops == old(ops) + [ReadWord(address, reg)] && r == bus.readWord(|old(ops)|)
      ensures continuousMode == old(continuousMode)
    {
      r := bus.readWord(|ops|);
      ops := ops + [ReadWord(address, reg)];
    }

    method WriteByteToReg(reg: byte, value: byte) returns (err: Option<Error>)
      modifies this
      ensures ops == old(ops) + [WriteByte(address, reg, value)] && err == bus.write(|old(ops)|)
      ensures continuousMode == old(continuousMode)
    {
      err := bus.write(|ops|);
      ops := ops + [WriteByte(address, reg, value)];
    }

    /** `GetStatus`: register 0x01, or 0 with the error. */
    method GetStatus() returns (st: bv8, err: Option<Error>)
      modifies this
      ensures ops == old(ops) + [ReadByte(address, StatusRegister)]
      ensures continuousMode == old(continuousMode)
      ensures var r := bus.readByte(|old(ops)|);
        if r.Ok? then st == r.value && err == None else st == 0 && err == Some(r.error)
    {
      var r := ReadByteFromReg(StatusRegister);
      if r.Err? {
        return 0, Some(r.error);
      }
      return r.value, None;
    }

    /** `Reset`: 0x00 to register 0x00 reloads the FPGA; a failed write panics. */
    method Reset() returns (panicked: bool)
      modifies this
      ensures ops == old(ops) + [WriteByte(address, 0x00, 0x00)]
      ensures panicked <==> bus.write(|old(ops)|).Some?
      ensures continuousMode == old(continuousMode)
    {
      var e := WriteByteToReg(0x00, 0x00);
      panicked := e.Some?;
    }

    /** `Read`: at most `MaxAttemptNumber` attempts, each a status read and, when the
        status allows it, a read of `register`. */
    method Read(register: byte) returns (val: bv8, err: Option<Error>)
      modifies this
      ensures continuousMode == old(continuousMode)
      ensures var o := ReadLoop(bus, |old(ops)|, address, register, attempts, []);
        ops == old(ops) + o.ops && (val, err) == ReadReturn(o.result)
    {
      ghost var start := |ops|;
      ghost var made: seq<BusOp> := [];
      var i, done := 0, false;
      val, err := 0, Some(Error(ReadLimit));
      while i < attempts && !done
        invariant i <= attempts && continuousMode == old(continuousMode)
        invariant ops == old(ops) + made
        invariant ReadLoop(bus, start, address, register, attempts, []) ==
          if done then Attempts(Ok(val), made) else ReadLoop(bus, start, address, register, attempts - i, made)
        invariant err == if done then None else Some(Error(ReadLimit))
        invariant !done ==> val == 0
      {
        ghost var a := ReadAttempt(bus, |ops|, address, register);
        var d, v := TryRead(register);
        made := made + a.ops;
        if d {
          done, val, err := true, v, None;
        }
        i := i + 1;
      }
    }

    /** One attempt of `Read`. */
    method TryRead(register: byte) returns (done: bool, val: bv8)
      modifies this
      ensures continuousMode == old(continuousMode)
      ensures var a := ReadAttempt(bus, |old(ops)|, address, register);
        ops == old(ops) + a.ops && done == a.result.Some? && (done ==> val == a.result.value)
    {
      var st, errSt := GetStatus();
      var readRegister := false;
      if errSt.Some? {
      } else if !Flagged(st, Health) {
        readRegister := true;
      } else if Flagged(st, ErrorDetection) {
      } else if !Flagged(st, SignalOverflow) {
      } else {
        readRegister := true;
      }
      done, val := false, 0;
      if readRegister {
        var v := ReadByteFromReg(register);
        if v.Ok? {
          done, val := true, v.value;
        }
      }
    }

    /** `WriteByteToRegister`: wait, for at most `MaxAttemptNumber` status reads, until
        the sensor is not busy, then write once. */
    method WriteByteToRegister(register: byte, value: byte) returns (err: Option<Error>)
      modifies this
      ensures continuousMode == old(continuousMode)
      ensures var o := WriteLoop(bus, |old(ops)|, address, register, value, attempts, []);
        ops == old(ops) + o.ops && err == o.result
    {
      ghost var start := |ops|;
      ghost var made: seq<BusOp> := [];
      var i, done := 0, false;
      err := Some(Error(WriteLimit));
      while i < attempts && !done
        invariant i <= attempts && continuousMode == old(continuousMode)
        invariant ops == old(ops) + made
        invariant WriteLoop(bus, start, address, register, value, attempts, []) ==
          if done then Attempts(err, made) else WriteLoop(bus, start, address, register, value, attempts - i, made)
        invariant !done ==> err == Some(Error(WriteLimit))
      {
        ghost var a := WriteAttempt(bus, |ops|, address, register, value);
        var e;
        done, e := TryWrite(register, value);
        made := made + a.ops;
        if done {
          err := e;
        }
        i := i + 1;
      }
    }

    /** One attempt of `WriteByteToRegister`. */
    method TryWrite(register: byte, value: byte) returns (done: bool, err: Option<Error>)
      modifies this
      ensures continuousMode == old(continuousMode)
      ensures var a := WriteAttempt(bus, |old(ops)|, address, register, value);
        ops == old(ops) + a.ops && done == a.result.Some? && (done ==> err == a.result.value)
    {
      var st, errSt := GetStatus();
      done, err := false, None;
      if errSt.None? && !Flagged(st, NotReady) {
        err := WriteByteToReg(register, value);
        done := true;
      }
    }

    /** `distanceContinuous`: one status read, then the distance word when it passes. */
    method DistanceContinuous() returns (d: int, err: Option<Error>)
      modifies this
      ensures continuousMode == old(continuousMode)
      ensures var o := Measure(bus, |old(ops)|, address); ops == old(ops) + o.ops && (d, err) == o.result
    {
      var st, errSt := GetStatus();
      if errSt.Some? {
        return -1, errSt;
      } else if !Flagged(st, Health) {
        var w := ReadWordFromReg(DistanceRegister);
        if w.Err? {
          return -1, Some(w.error);
        }
        return w.value, None;
      } else if Flagged(st, ErrorDetection) {
        return -1, Some(Error(CountingError));
      } else if !Flagged(st, SignalOverflow) {
        return -1, Some(Error(NoLimiting));
      } else {
        var w := ReadWordFromReg(DistanceRegister);
        if w.Err? {
          return -1, Some(w.error);
        }
        return w.value, None;
      }
    }

    /** `Distance`. */
    method Distance(stabilize: bool) returns (d: int, err: Option<Error>)
      modifies this
      ensures continuousMode == old(continuousMode)
      ensures var o := DistanceSpec(bus, |old(ops)|, address, old(continuousMode), stabilize, attempts);
        ops == old(ops) + o.ops && (d, err) == o.result
    {
      if continuousMode {
        d, err := DistanceContinuous();
      } else {
        d, err := CommandAndMeasure(if stabilize then 0x04 else 0x03);
      }
    }

    /** The non-continuous part of `Distance`. */
    method CommandAndMeasure(command: byte) returns (d: int, err: Option<Error>)
      modifies this
      ensures continuousMode == old(continuousMode)
      ensures var o := CommandThenMeasure(bus, |old(ops)|, address, command, attempts);
        ops == old(ops) + o.ops && (d, err) == o.result
    {
      ghost var w := WriteLoop(bus, |ops|, address, 0x00, command, attempts, []);
      var wErr := WriteByteToRegister(0x00, command);
      if wErr.Some? {
        return -1, wErr;
      }
      ghost var m := Measure(bus, |ops|, address);
      d, err := DistanceContinuous();
      AppendAssoc(old(ops), w.ops, m.ops);
    }

    /** `Velocity`. */
    method Velocity() returns (v: int, err: Option<Error>)
      modifies this
      ensures continuousMode == old(continuousMode)
      ensures var o := VelocitySpec(bus, |old(ops)|, address, attempts); ops == old(ops) + o.ops && (v, err) == o.result
    {
      ghost var w := WriteLoop(bus, |ops|, address, 0x04, 0xa0, attempts, []);
      var wErr := WriteByteToRegister(0x04, 0xa0);
      if wErr.Some? {
        return -1, wErr;
      }
      ghost var m := VelocityAfterMode(bus, |ops|, address, attempts);
      v, err := VelocityAfterModeSet();
      AppendAssoc(old(ops), w.ops, m.ops);
    }

    /** The part of `Velocity` after the mode write. */
    method VelocityAfterModeSet() returns (v: int, err: Option<Error>)
      modifies this
      ensures continuousMode == old(continuousMode)
      ensures ops == old(ops) + VelocityAfterMode(bus, |old(ops)|, address, attempts).ops
      ensures (v, err) == VelocityAfterMode(bus, |old(ops)|, address, attempts).result
    {
      v := -1;
      err := WriteByteToReg(0x00, 0x04);
      if err.None? {
        ghost var r := ReadLoop(bus, |ops|, address, 0x09, attempts, []);
        var val, e := Read(0x09);
        AppendAssoc(old(ops), [WriteByte(address, 0x00, 0x04)], r.ops);
        if e.Some? {
          err := e;
        } else {
          v := val as int;
        }
      }
    }

    /** `BeginContinuous`: four direct writes, the first failure returned; the mode
        flag is set only when all four succeed. */
    method BeginContinuous(modePinLow: bool, interval: byte, readings: byte) returns (err: Option<Error>)
      modifies this
      ensures |old(ops)| < |ops| <= |old(ops)| + 4 && ops[..|old(ops)|] == old(ops)
      ensures var made := ops[|old(ops)|..];
        made == ContinuousWrites(address, modePinLow, interval, readings)[..|made|] &&
        (forall k :: |old(ops)| <= k < |ops| - 1 ==> bus.write(k).None?) &&
        err == bus.write(|ops| - 1) && (|made| < 4 ==> err.Some?)
      ensures continuousMode == (old(continuousMode) || err.None?)
    {
      ghost var n0 := |ops|;
      ghost var all := ContinuousWrites(address, modePinLow, interval, readings);
      err := WriteByteToReg(0x45, interval);
      if err.Some? {
        assert all[..1] == [ops[n0]];
        return;
      }
      if modePinLow {
        err := WriteByteToReg(0x04, 0x21);
      } else {
        err := WriteByteToReg(0x04, 0x20);
      }
      if err.Some? {
        assert all[..2] == ops[n0..];
        return;
      }
      err := WriteByteToReg(0x11, readings);
      if err.Some? {
        assert all[..3] == ops[n0..];
        return;
      }
      err := WriteByteToReg(0x00, 0x04);
      if err.Some? {
        assert all[..4] == ops[n0..];
        return;
      }
      assert all[..4] == ops[n0..];
      continuousMode := true;
    }

    /** `StopContinuous`: reset, then clear the mode flag (a failed reset panics
        before the flag is cleared). */
    method StopContinuous() returns (panicked: bool)
      modifies this
      ensures ops == old(ops) + [WriteByte(address, 0x00, 0x00)]
      ensures panicked <==> bus.write(|old(ops)|).Some?
      ensures continuousMode == (old(continuousMode) && panicked)
    {
      panicked := Reset();
      if !panicked {
        continuousMode := false;
      }
    }
  }

  /** `NewLidar`: a failure to open the bus panics; otherwise the sensor starts out of
      continuous mode and is reset. */
  method NewLidar(address: byte, open: Option<Error>, bus: Replies) returns (l: Lidar?, panicked: bool)
    ensures open.Some? ==> panicked && l == null
    ensures open.None? ==>
      && l != null && fresh(l) && l.address == address && l.bus == bus
      && l.attempts == MaxAttemptNumber && !l.continuousMode && l.ops == [WriteByte(address, 0x00, 0x00)] && (panicked <==> bus.write(0).Some?)
  {
    if open.Some? {
      return null, true;
    }
    l := new Lidar(address, bus);
    panicked := l.Reset();
  }
}
