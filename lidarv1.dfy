/** The older LIDAR-Lite driver of lidar.go. Its bus is answered by call number, as
    in the newer driver, and every bus error ends in `log.Panic`, so an operation
    either returns a value or panics; it never returns an error to its caller. */
module LidarV1 {
  import opened Base

  /** What the bus answers to the k-th call. */
  datatype Replies = Replies(readByte: nat -> Result<byte, Error>, write: nat -> Option<Error>)

  /** The outcome of an operation and the bus calls it made, oldest first. */
  datatype Run<T> = Run(outcome: Fallible<T>, ops: seq<BusOp>)

  const StatusRegister: byte := 0x01
  const LowByteRegister: byte := 0x10
  const HighByteRegister: byte := 0x0f

  /** `NewLidar`: the FPGA reset, 0x00 to register 0x00, as call `n`; a failed
      write panics with "Write " and the error. */
  function NewLidar(bus: Replies, n: nat, addr: byte): (r: Run<()>)
    ensures r.ops == [WriteByte(addr, 0x00, 0x00)]
    ensures r.outcome.Returned? <==> bus.write(n).None?
  {
    var e := bus.write(n);
    Run(if e.Some? then Panicked("Write " + e.value.message) else Returned(()), [WriteByte(addr, 0x00, 0x00)])
  }

  /** `Distance`, from call `n` on: a status read, the command (0x04 with DC
      stabilisation, 0x03 without) to register 0x00, a second status read, then
      the low and the high byte. The status values are not looked at. */
  function Distance(bus: Replies, n: nat, addr: byte, stabilize: bool): Run<int>
  {
    var status := ReadByte(addr, StatusRegister);
    var command := WriteByte(addr, 0x00, if stabilize then 0x04 else 0x03);
    if bus.readByte(n).Err? then Run(Panicked("GetStatus " + bus.readByte(n).error.message), [status])
    else if bus.write(n + 1).Some? then Run(Panicked("Write " + bus.write(n + 1).value.message), [status, command])
    else if bus.readByte(n + 2).Err? then
      Run(Panicked("GetStatus " + bus.readByte(n + 2).error.message), [status, command, status])
    else if bus.readByte(n + 3).Err? then
      Run(Panicked("Read " + bus.readByte(n + 3).error.message), [status, command, status, ReadByte(addr, LowByteRegister)])
    else
      var all := [status, command, status, ReadByte(addr, LowByteRegister), ReadByte(addr, HighByteRegister)];
      if bus.readByte(n + 4).Err? then Run(Panicked("Read" + bus.readByte(n + 4).error.message), all)
      else Run(Returned(bus.readByte(n + 4).value * 0x100 + bus.readByte(n + 3).value), all)
  }

  /** The five calls of a measurement that succeeds. */
  function DistanceCalls(addr: byte, stabilize: bool): seq<BusOp>
  {
    [ReadByte(addr, StatusRegister), WriteByte(addr, 0x00, if stabilize then 0x04 else 0x03),
     ReadByte(addr, StatusRegister), ReadByte(addr, LowByteRegister), ReadByte(addr, HighByteRegister)]
  }

  /** A distance is returned exactly when all five calls succeed; it is then the
      high byte times 256 plus the low byte, in 0..65535, and splits back into the
      two bytes read (lidar.go:97-110). */
  lemma DistanceValue(bus: Replies, n: nat, addr: byte, stabilize: bool)
    ensures var r := Distance(bus, n, addr, stabilize);
      r.outcome.Returned? <==>
        bus.readByte(n).Ok? && bus.write(n + 1).None? && bus.readByte(n + 2).Ok? &&
        bus.readByte(n + 3).Ok? && bus.readByte(n + 4).Ok?
    ensures var r := Distance(bus, n, addr, stabilize);
      r.outcome.Returned? ==>
        && r.ops == DistanceCalls(addr, stabilize)
        && 0 <= r.outcome.value < 0x1_0000
        && r.outcome.value / 0x100 == bus.readByte(n + 4).value
        && r.outcome.value % 0x100 == bus.readByte(n + 3).value
  {
  }

  /** Call k of a measurement from call `n` on succeeds (call 1 is the write). */
  predicate CallSucceeds(bus: Replies, n: nat, k: nat)
  {
    if k == 1 then bus.write(n + 1).None? else bus.readByte(n + k).Ok?
  }

  /** Every failure panics, and the calls made are a prefix of the five, ending
      with the one that failed: nothing is called after an error (lidar.go:64, 87,
      101, 106). */
  lemma DistancePanicsAtFirstError(bus: Replies, n: nat, addr: byte, stabilize: bool)
    ensures var r := Distance(bus, n, addr, stabilize);
      && 1 <= |r.ops| <= 5 && r.ops == DistanceCalls(addr, stabilize)[..|r.ops|]
      && (r.outcome.Panicked? <==> !CallSucceeds(bus, n, |r.ops| - 1))
      && (forall k :: 0 <= k < |r.ops| - 1 ==> CallSucceeds(bus, n, k))
  {
    var r := Distance(bus, n, addr, stabilize);
    var all := DistanceCalls(addr, stabilize);
    assert all[..1] == [all[0]] && all[..2] == [all[0], all[1]] && all[..3] == [all[0], all[1], all[2]];
    assert all[..4] == [all[0], all[1], all[2], all[3]] && all[..5] == all;
  }

  /** The status is read before the command, and the command is 0x04 exactly when
      DC stabilisation is asked for (lidar.go:79-85). */
  lemma DistanceCommandChoice(bus: Replies, n: nat, addr: byte, stabilize: bool)
    ensures var r := Distance(bus, n, addr, stabilize);
      r.ops[0] == ReadByte(addr, StatusRegister) &&
      (bus.readByte(n).Ok? ==>
        |r.ops| >= 2 && r.ops[1].WriteByte? && r.ops[1].reg == 0x00 && (r.ops[1].value == 0x04 <==> stabilize))
  {
  }
}
