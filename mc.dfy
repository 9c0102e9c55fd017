/** The motor controller of mc/mc.go and the register and command numbers of
    mc/mc.h, which the controller firmware shares. Each operation is one call on
    the bus, whose error the operation returns unchanged. */
module Motors {
  import opened Base

  const Address: byte := 0x43
  /** `MaxSpeed`: the offset added to a signed speed. */
  const MaxSpeed: int := 90

  const CommandBrake: byte := 0
  const CommandReleaseBrake: byte := 1
  const CommandSleep: byte := 2
  const CommandWake: byte := 3

  /** Each encoder has two consecutive pins, from `MinEncoderPin` on. */
  const MinEncoderPin: nat := 2
  const PinEncoderLeftFront1: nat := MinEncoderPin
  const PinEncoderLeftBack1: nat := MinEncoderPin + 2
  const PinEncoderRightFront1: nat := MinEncoderPin + 4
  const PinEncoderRightBack1: nat := MinEncoderPin + 6

  /** The 4-byte register of the encoder on pin `pin`: `((pin - MinEncoderPin) >> 1) + 1`. */
  function EncoderRegister(pin: nat): byte
    requires MinEncoderPin <= pin < MinEncoderPin + 8
  {
    (pin - MinEncoderPin) / 2 + 1
  }

  const RegisterCommand: byte := 0
  const RegisterEncoderLeftFront: byte := EncoderRegister(PinEncoderLeftFront1)
  const RegisterEncoderLeftBack: byte := EncoderRegister(PinEncoderLeftBack1)
  const RegisterEncoderRightFront: byte := EncoderRegister(PinEncoderRightFront1)
  const RegisterEncoderRightBack: byte := EncoderRegister(PinEncoderRightBack1)
  /** The enumeration goes on after the last encoder register. */
  const RegisterMotorLeft: byte := RegisterEncoderRightBack + 1
  const RegisterMotorRight: byte := RegisterMotorLeft + 1

  /** Both pins of an encoder share its register, and the encoders get registers 1
      to 4 in pin order (mc/mc.h:25-45). */
  lemma EncoderRegisters()
    ensures forall k: nat :: k < 4 ==>
      EncoderRegister(MinEncoderPin + 2 * k) == EncoderRegister(MinEncoderPin + 2 * k + 1) == k + 1
    ensures RegisterEncoderLeftFront == 1 && RegisterEncoderLeftBack == 2
    ensures RegisterEncoderRightFront == 3 && RegisterEncoderRightBack == 4
  {
  }

  /** The command register, the four encoder registers and the two motor registers
      are distinct, the motors taking 5 and 6 (mc/mc.h:38-49). */
  lemma RegistersDistinct()
    ensures var regs := [RegisterCommand, RegisterEncoderLeftFront, RegisterEncoderLeftBack,
                         RegisterEncoderRightFront, RegisterEncoderRightBack, RegisterMotorLeft, RegisterMotorRight];
      forall i, j :: 0 <= i < j < |regs| ==> regs[i] != regs[j]
    ensures RegisterMotorLeft == 5 && RegisterMotorRight == 6
  {
  }

  /** The byte `Left` and `Right` send for a speed: `byte(int(speed) + MaxSpeed)`. */
  function SpeedByte(speed: int8): byte
  {
    ToByte(speed + MaxSpeed)
  }

  /** The speed a motor byte stands for: the inverse of `SpeedByte` on all of `int8`. */
  function SpeedOf(b: byte): int8
  {
    ToInt8(b - MaxSpeed)
  }

  /** Within -MaxSpeed..MaxSpeed the byte is 0..180 and the speed is the byte minus
      90; above it the byte is 181..217, and below it the sum wraps modulo 256 to
      218..255 (mc/mc.go:16, 77-84). */
  lemma SpeedByteRange(speed: int8)
    ensures -MaxSpeed <= speed <= MaxSpeed ==> 0 <= SpeedByte(speed) <= 2 * MaxSpeed && SpeedByte(speed) - MaxSpeed == speed
    ensures speed > MaxSpeed ==> SpeedByte(speed) == speed + MaxSpeed && 2 * MaxSpeed < SpeedByte(speed) <= 217
    ensures speed < -MaxSpeed ==> SpeedByte(speed) == speed + MaxSpeed + 0x100 && 218 <= SpeedByte(speed)
  {
  }

  /** `SpeedByte` is a bijection between `int8` and bytes: no two speeds share a
      byte, and every byte is the encoding of a speed. */
  lemma SpeedRoundTrip(speed: int8, b: byte)
    ensures SpeedOf(SpeedByte(speed)) == speed
    ensures SpeedByte(SpeedOf(b)) == b
  {
  }

  /** `Left`, `Right`: the speed byte to the motor's register. */
  function Left(addr: byte, speed: int8): BusOp
  {
    WriteByte(addr, RegisterMotorLeft, SpeedByte(speed))
  }

  function Right(addr: byte, speed: int8): BusOp
  {
    WriteByte(addr, RegisterMotorRight, SpeedByte(speed))
  }

  /** `Brake`: the brake or the brake release command. */
  function Brake(addr: byte, brake: bool): BusOp
  {
    WriteByte(addr, RegisterCommand, if brake then CommandBrake else CommandReleaseBrake)
  }

  function Sleep(addr: byte): BusOp
  {
    WriteByte(addr, RegisterCommand, CommandSleep)
  }

  function Wake(addr: byte): BusOp
  {
    WriteByte(addr, RegisterCommand, CommandWake)
  }

  /** The four commands all go to the command register and are told apart by their
      values, 0 to 3; a motor write never goes to the command register
      (mc/mc.go:55-84, mc/mc.h:12-21). */
  lemma CommandsDistinct(addr: byte, s: int8, t: int8)
    ensures var cmds := [Brake(addr, true), Brake(addr, false), Sleep(addr), Wake(addr)];
      (forall i :: 0 <= i < 4 ==> cmds[i].reg == RegisterCommand && cmds[i].value == i) &&
      Left(addr, s).reg != RegisterCommand && Right(addr, t).reg != RegisterCommand && Left(addr, s) != Right(addr, t)
  {
  }

  /** A motor write names its speed: the speed can be read back from the value. */
  lemma MotorWriteDecodes(addr: byte, speed: int8)
    ensures SpeedOf(Left(addr, speed).value) == speed && SpeedOf(Right(addr, speed).value) == speed
  {
    SpeedRoundTrip(speed, 0);
  }

  /** The buffer of a 4-byte read. */
  type Quad = s: seq<byte> | |s| == 4 witness [0, 0, 0, 0]

  /** Interprets a 32-bit pattern as two's complement. */
  function Signed32(u: uint32): int32
  {
    if u < 0x8000_0000 then u else u - 0x1_0000_0000
  }

  /** `binary.Read(..., binary.LittleEndian, &value)` into an `int32`: byte 0 is the
      least significant. */
  function DecodeInt32(q: Quad): (v: int32)
  {
    Signed32(Unsigned32(q))
  }

  /** The unsigned value of four bytes, least significant first. */
  function Unsigned32(q: Quad): uint32
  {
    q[0] as int + 0x100 * (q[1] as int) + 0x1_0000 * (q[2] as int) + 0x100_0000 * (q[3] as int)
  }

  /** The four bytes of an `int32` in little-endian order, as the firmware sends it. */
  function EncodeInt32(v: int32): Quad
  {
    var u := if v < 0 then v + 0x1_0000_0000 else v;
    [u % 0x100, u / 0x100 % 0x100, u / 0x100 / 0x100 % 0x100, u / 0x100 / 0x100 / 0x100]
  }

  /** Splitting off the low byte. */
  lemma LowByte(a: int, b: int, c: int)
    requires 0 <= b < 0x100 && a == b + 0x100 * c
    ensures a % 0x100 == b && a / 0x100 == c
  {
  }

  /** Encoding then decoding gives the value back (mc/mc.go:87-96). */
  lemma DecodeEncode(v: int32)
    ensures DecodeInt32(EncodeInt32(v)) == v
  {
    var u := if v < 0 then v + 0x1_0000_0000 else v;
    var u1, u2 := u / 0x100, u / 0x100 / 0x100;
    LowByte(u, u % 0x100, u1);
    LowByte(u1, u1 % 0x100, u2);
    LowByte(u2, u2 % 0x100, u2 / 0x100);
    assert Unsigned32(EncodeInt32(v)) == u;
  }

  /** Decoding then encoding gives the bytes back, so every 4-byte buffer is the
      encoding of exactly one value. */
  lemma EncodeDecode(q: Quad)
    ensures EncodeInt32(DecodeInt32(q)) == q
  {
    var w := Unsigned32(q);
    var d := DecodeInt32(q);
    assert (if d < 0 then d as int + 0x1_0000_0000 else d as int) == w;
    LowByte(w, q[0], q[1] as int + 0x100 * (q[2] as int) + 0x1_0000 * (q[3] as int));
    LowByte(w / 0x100, q[1], q[2] as int + 0x100 * (q[3] as int));
    LowByte(w / 0x100 / 0x100, q[2], q[3]);
  }

  /** `ReadEncoder`: a 4-byte read of the encoder's register; a failed read returns
      its error without decoding, a successful one the value the four bytes encode. */
  function ReadEncoder(addr: byte, encoder: byte, reply: Result<Quad, Error>): (r: (BusOp, Result<int32, Error>))
    ensures r.0 == ReadSlice(addr, encoder, 4)
    ensures reply.Err? ==> r.1 == Err(reply.error)
    ensures reply.Ok? ==> r.1.Ok? && EncodeInt32(r.1.value) == reply.value
  {
    if reply.Err? then (ReadSlice(addr, encoder, 4), Err(reply.error))
    else
      EncodeDecode(reply.value);
      (ReadSlice(addr, encoder, 4), Ok(DecodeInt32(reply.value)))
  }
}
