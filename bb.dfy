/** The BotBoarduino interface of bb/bb.go: each module id owns the 16 registers
    from `id << 4`, and each operation is one bus call on them. The id of the
    pan/tilt module is a parameter. */
module Board {
  import opened Base

  const Address: byte := 0x42
  /** `MaxTilt`, in degrees; `Tilt` does not check it. */
  const MaxTilt: byte := 124

  /** Module ids (bb/bb.h); bit `id` of the status mask is that module's readiness.
      The header defines no pan/tilt or arm id, which is why `Pan` and `Tilt` take one. */
  const ModuleCommand: int := 0x00
  const ModuleBoard: int := 0x01
  const ModuleMotor: int := 0x02
  const ModuleLightSensor: int := 0x03
  const ModuleEnvironmentSensor: int := 0x0c
  const ModuleSpeech: int := 0x0d

  /** `register(id)`: `byte(id << 4)`. A left shift of a Go `int` by 4 is a
      multiplication by 16, and the conversion keeps its low 8 bits. */
  function Register(id: int): byte
  {
    ToByte(id * 16)
  }

  /** The low nibble of a register of a module is 0, and the high nibble is the
      module id modulo 16; so ids 0..15 get distinct registers and ids 16 apart
      share one (bb/bb.go:39-41). */
  lemma RegisterNibbles(id: int)
    ensures Register(id) % 16 == 0
    ensures Register(id) / 16 == id % 16
  {
  }

  lemma RegisterInjective(a: int, b: int)
    requires 0 <= a < 16 && 0 <= b < 16
    ensures Register(a) == Register(b) <==> a == b
  {
    RegisterNibbles(a);
    RegisterNibbles(b);
  }

  /** `GetStatus`: the 16-bit readiness mask, a word read at the board module. */
  function GetStatus(addr: byte): (op: BusOp)
    ensures op.ReadWord? && op.reg == 0x10
  {
    ReadWord(addr, Register(ModuleBoard))
  }

  /** `Pan`, `Tilt`: the angle, unchecked, to the first and to the second register of
      the pan/tilt module. */
  function Pan(addr: byte, modulePanTilt: int, angle: byte): BusOp
  {
    WriteByte(addr, Register(modulePanTilt), angle)
  }

  /** The `+ 1` is byte arithmetic. */
  function Tilt(addr: byte, modulePanTilt: int, angle: byte): BusOp
  {
    WriteByte(addr, ToByte(Register(modulePanTilt) + 1), angle)
  }

  /** Tilt's register directly follows Pan's, inside the same module's block (the
      byte addition never wraps), and any angle is sent as given, also one above
      `MaxTilt` (bb/bb.go:49-58). */
  lemma PanTiltRegisters(addr: byte, m: int, angle: byte)
    ensures Tilt(addr, m, angle).reg == Pan(addr, m, angle).reg + 1
    ensures Tilt(addr, m, angle).reg / 16 == Pan(addr, m, angle).reg / 16 == m % 16
    ensures Pan(addr, m, angle).value == Tilt(addr, m, angle).value == angle
  {
    RegisterNibbles(m);
  }
}
