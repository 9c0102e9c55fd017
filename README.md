# Rover core, modelled in Dafny

The rover is a Raspberry Pi robot. A Go program drives its hardware and serves it over
HTTPS and gRPC. This project models the decision logic of that program: its encoders,
decoders, register rules, retry loops and request handling. The network, the certificate
authority, the I²C bus, the GPIO pins, the storage bucket, the subprocesses and the
filesystem all become oracles: functions indexed by the call number, sequences of
outcomes, or a map from path to bytes. Every property is a contract or lemma over those
oracles. The model runs nothing.

Modules, one per source file:

- `Base` (base.dfy): shared vocabulary.
  - `Option`, `Result` and `Fallible` (an outcome or a Go panic).
  - Byte and int ranges, and Go's truncating division.
  - Decimal rendering of integers.
- `Dns` (dns.dfy), for network/dns.go:
  - `UpdateDNS` reconciles one desired record set against the zone's existing record sets, flattened into one sequence. It works out the deletions, the addition and `maxTtl`, and skips the provider when nothing changes.
  - `pollCompletion` is a loop over an abstract sequence of poll outcomes.
- `Acme` (acme.dfy), for network/acme.go: certificate issuance with the DNS-01 challenge of ACME (section 8.4 of RFC 8555).
  - Key and account read-or-create.
  - Certificate and key path derivation.
  - Authorization of one domain: the `valid` short-circuit, picking the first `dns-01` challenge, the `_acme-challenge.<domain>.` TXT record, then update, accept, wait.
  - CSR naming and the order of the certificate chain.
  - The existence check that decides whether to request at all.
- `Dht11` (dht11.dfy): the DHT11 pulse-train decoder shared by drivers/dht11.go and gpio.go.
  - Sampling 410 pin levels.
  - Decoding runs of 1-samples backwards into 5 bytes, LSB first.
  - The checksum, the driver's fields, and the `Read(n)` retry loop.
- `Gpio` (gpio.dfy), for rpi/gpio/gpio.c and rpi/gpio/gpio.go:
  - the register block as an array of 32-bit words;
  - 3-bit mode fields, and bank/bit addressing for read, write and trigger;
  - the pull-up/down write sequence;
  - MSB-first pulse packing;
  - the C DHT11 frame check, and the Go value conversions.
- `Lidar` (lidar.dfy), for rpi/lidar/lidar.go, the LIDAR-Lite v2 driver:
  - status flags and their classification;
  - bounded retry loops for reads and writes;
  - the continuous-mode flag.
- `LidarV1` (lidarv1.dfy), for lidar.go, the older lidar: reset, command choice, and combining the high and low bytes.
- `Motors` (mc.dfy), for mc/mc.go and mc/mc.h:
  - register and command numbers;
  - speed offset encoding;
  - little-endian `int32` encoder decoding.
- `Board` (bb.dfy), for bb/bb.go: the module-to-register shift, status read, pan and tilt.
- `I2c` (i2c.dfy), for rpi/i2c/i2c.go: the bus with its slave-address cache, where every transfer sets the address first.
- `CameraServer` (camera_server.dfy), for camera/server.go, the capture HTTP handler:
  - password gate and integer headers;
  - parameter defaults and the order in which they apply;
  - choice between video and still capture, and the argument lists.
- `CameraProcess` (camera_process.dfy), for camera/process.go: capture argument lists, how a run's failure is classified, and how its message is composed.
- `App` (app.dfy), for main.go:
  - the `KEY=value` password-file parser;
  - password validation;
  - authentication metadata;
  - the gRPC routing predicate.
- `Auth` (auth.dfy), for auth/manager.go:
  - the token manager, with its disabled mode;
  - the cache-aside token lookup against the bucket;
  - `CheckAccess`, both as written and corrected (see Findings).
- `Rpc` (rpc.dfy), for rpc/server.go, the gRPC service:
  - metadata extraction;
  - the handlers' guard order (access, then hardware presence, then the bus);
  - the motor and encoder sequences.

Where a Go function writes a field or loops, the model is a method on a class or a `while`
loop, proved against a specification function. Lemmas state the listed properties about
those functions.

## Model

| member | source | states |
|---|---|---|
| Board.RegisterNibbles | bb/bb.go:39-41 | the register of a module has a zero low nibble and the module id (mod 16) as its high nibble, so each module owns 16 registers |
| Board.RegisterInjective | bb/bb.go:39-41 | two module ids below 16 give the same register exactly when they are equal |
| Board.GetStatus | bb/bb.go:44-46 | the readiness mask is one word read from the board module's register 0x10 |
| Board.Pan | bb/bb.go:49-52 | the pan angle as one byte write to the first register of the pan/tilt module; its properties are stated by `Board.PanTiltRegisters` |
| Board.Tilt | bb/bb.go:55-58 | the tilt angle as one byte write to the register after the pan one; its properties are stated by `Board.PanTiltRegisters` |
| Board.PanTiltRegisters | bb/bb.go:49-58 | the tilt register directly follows the pan register inside the pan/tilt module's block, and both writes carry the unchecked angle |
| Motors.EncoderRegisters | mc/mc.h:25-49 | both pins of an encoder map to its register, and the four encoders get registers 1 to 4 |
| Motors.RegistersDistinct | mc/mc.h:25-49 | the command, encoder and motor registers are seven different numbers; the motors use 5 and 6 |
| Motors.SpeedByteRange | mc/mc.go:77-84 | within -90..90 a speed is sent as 0..180 (the speed plus 90); speeds outside that range wrap to the bytes 181..217 and 218..255 |
| Motors.SpeedRoundTrip | mc/mc.go:77-84 | the speed byte is a bijection between `int8` and bytes, with `SpeedOf` as its inverse |
| Motors.CommandsDistinct | mc/mc.go:55-74 | brake, release, sleep and wake all write the command register with the values 0, 1, 2, 3, and the motor writes go elsewhere, left and right apart |
| Motors.Left | mc/mc.go:82-84 | the left speed as its offset byte written to the left motor register; `Motors.MotorWriteDecodes` recovers the speed from it |
| Motors.Right | mc/mc.go:77-79 | the right speed as its offset byte written to the right motor register; `Motors.MotorWriteDecodes` recovers the speed from it |
| Motors.Brake | mc/mc.go:68-74 | the brake or brake-release command to the command register; `Motors.CommandsDistinct` states the values |
| Motors.Sleep | mc/mc.go:55-57 | the sleep command to the command register; `Motors.CommandsDistinct` states the value |
| Motors.Wake | mc/mc.go:60-62 | the wake command to the command register; `Motors.CommandsDistinct` states the value |
| Motors.MotorWriteDecodes | mc/mc.go:77-84 | the speed of a `Left` or `Right` write can be read back from its value |
| Motors.DecodeEncode | mc/mc.go:87-96 | decoding the little-endian bytes of an `int32` gives the value back |
| Motors.EncodeDecode | mc/mc.go:87-96 | encoding a decoded 4-byte buffer gives the same bytes, so every buffer is one `int32` |
| Motors.ReadEncoder | mc/mc.go:87-96 | a 4-byte read of the encoder register; a failed read returns its error, a good one the `int32` whose little-endian bytes were read |
| I2c.CachedAddress | rpi/i2c/i2c.go:34-43 | the slave the kernel has selected after a sequence of calls is 0 or the address of an ioctl in it that succeeded |
| I2c.CachedAfter | rpi/i2c/i2c.go:34-43 | the slave the kernel has selected only changes on an ioctl that succeeds, and then becomes that ioctl's address |
| I2c.OrderlyAppend | rpi/i2c/i2c.go:34-43 | every call so far having selected its slave first is kept when one more such call is made |
| I2c.SelectCache | rpi/i2c/i2c.go:34-43 | the ioctl is issued exactly when the slave differs from the cached one; the cache moves to the slave exactly when the selection succeeds, and a failure leaves it unchanged |
| I2c.TransferShape | rpi/i2c/i2c.go:46-89 | every transfer selects its slave first; a failed selection makes no SMBus call and returns 0 and the error; otherwise the one SMBus call's reply is the result |
| I2c.FreshBusAddressZero | rpi/i2c/i2c.go:23-32 | a new bus caches address 0, so its first transfer to slave 0 issues no ioctl |
| I2c.SelectOrderly | rpi/i2c/i2c.go:34-43 | selecting a slave from a cache that agrees with the kernel keeps the cache and the kernel in agreement |
| I2c.TransferOrderly | rpi/i2c/i2c.go:46-89 | a transfer keeps the cache in agreement with the kernel's selected slave |
| I2c.Bus.constructor | rpi/i2c/i2c.go:23-32 | a bus starts with cached address 0 and no calls made |
| I2c.Bus.SetRemoteAddress | rpi/i2c/i2c.go:34-43 | the new cache, the calls made and the error are those of the selection step from the old state |
| I2c.Bus.Transfer | rpi/i2c/i2c.go:46-89 | the shared steps of the transfers: the new state and the result are those of the transfer step, and the cache keeps agreeing with the kernel |
| I2c.Bus.ReadByteFromReg | rpi/i2c/i2c.go:46-54 | the transfer of a byte read; the value is the low byte of the C result, even when errno is set |
| I2c.Bus.ReadWordFromReg | rpi/i2c/i2c.go:57-65 | the transfer of a word read; the value is the C result taken modulo 2^16 |
| I2c.Bus.WriteByteToReg | rpi/i2c/i2c.go:68-77 | the transfer of a byte write, and its error |
| I2c.Bus.WriteWordToReg | rpi/i2c/i2c.go:80-89 | the transfer of a word write, and its error |
| I2c.BusPath | rpi/i2c/i2c.go:23-32 | the device file of a bus is under `/dev/i2c-` |
| I2c.BusPathsDistinct | rpi/i2c/i2c.go:23-32 | two bus ids open the same device file exactly when they are equal |
| I2c.NewBus | rpi/i2c/i2c.go:23-32 | the error is that of opening the bus's device file; on success a fresh bus comes back with cache 0 and no calls, on failure none |
| LidarV1.NewLidar | lidar.go:46-55 | the constructor writes the FPGA reset (0x00 to register 0x00) and returns exactly when that write succeeds |
| LidarV1.Distance | lidar.go:75-115 | the measurement from a given call on: status, command, status, low byte, high byte, with a panic at the first failing call; `LidarV1.DistanceValue`, `LidarV1.DistancePanicsAtFirstError` and `LidarV1.DistanceCommandChoice` state its properties |
| LidarV1.DistanceValue | lidar.go:75-115 | a distance comes back exactly when all five calls succeed; the calls are then status, command, status, low byte, high byte, and the value is high * 256 + low |
| LidarV1.DistancePanicsAtFirstError | lidar.go:75-115 | the calls made are a prefix of the five; every call before the last succeeded, and the measurement panics exactly when the last call failed |
| LidarV1.DistanceCommandChoice | lidar.go:79-89 | the status is read before the command, and the command is 0x04 (with DC stabilisation) exactly when stabilisation was asked for |
| Lidar.FlagsAreBits | rpi/lidar/lidar.go:27-56 | the eight status flags, in declaration order, are the bits 1, 2, 4, ..., 128 |
| Lidar.ReadDecisionExamples | rpi/lidar/lidar.go:94-111 | the order of the status tests matters: bad health reads even with an error detected; good health reads only with no error detected and signal overflow |
| Lidar.Then | rpi/lidar/lidar.go:91-117 | prefixing calls keeps the result and adds their number to the calls made |
| Lidar.ReadAttempt | rpi/lidar/lidar.go:93-111 | one attempt of `Read` always reads the status first; it reads the register second exactly when that status read succeeded and passed the health-first test; a value comes back only from that register read, and a lone status read gives none |
| Lidar.ReadLoop | rpi/lidar/lidar.go:91-117 | the retry loop of `Read` over the bus's replies, ending at the first value or after the attempts run out with the read limit; the lemmas below state its properties |
| Lidar.ReadReturn | rpi/lidar/lidar.go:91-117 | the Go pair of a read: no error exactly when a byte was read, and then that byte; otherwise 0 and the error |
| Lidar.ReadLoopBounded | rpi/lidar/lidar.go:91-117 | `Read` makes between one and two calls per attempt left, keeps the calls already made, and its only error is the read limit, reached after at least one call per attempt |
| Lidar.ReadLoopOk | rpi/lidar/lidar.go:91-117 | a value comes back only from a successful register read made right after a status read that succeeded and passed the tests |
| Lidar.ReadNeverPasses | rpi/lidar/lidar.go:91-117 | when no status in the attempts left passes, the register is never read: the 50 status reads are made and the read limit is returned |
| Lidar.GatedCount | rpi/lidar/lidar.go:93-111 | the number of `Read` attempts a call sequence is made of, when every register read in it directly follows a status read that succeeded and passed the health-first test |
| Lidar.ReadLoopGated | rpi/lidar/lidar.go:91-117 | every register read of the loop, whether it then fails or not, directly follows a passing status read; the loop makes at most as many status reads as attempts, and exactly that many when it gives up |
| Lidar.WriteAttempt | rpi/lidar/lidar.go:127-138 | one attempt of `WriteByteToRegister` makes two calls when it writes and one when the sensor is busy or the status read fails |
| Lidar.WriteLoop | rpi/lidar/lidar.go:126-140 | the retry loop of `WriteByteToRegister` over the bus's replies: status reads until one is ready, then one unretried write; `Lidar.WriteLoopShape` states it in closed form |
| Lidar.FirstReady | rpi/lidar/lidar.go:127-138 | the number of status reads before the first ready one: none of those is ready, and the next one, if within the bound, is |
| Lidar.WriteLoopShape | rpi/lidar/lidar.go:126-140 | the write loop reads the status until the first ready one, then writes once and returns that write's error; with no ready status within the bound it returns the write limit after that many status reads |
| Lidar.SkipBusy | rpi/lidar/lidar.go:126-140 | a run of busy status reads costs one attempt each and leaves the rest of the loop unchanged |
| Lidar.Repeat | rpi/lidar/lidar.go:92 | `m` copies of a call, the shape of an attempt that is retried |
| Lidar.RepeatSnoc | rpi/lidar/lidar.go:92 | one more retried call in front of `m` of them is `m + 1` of them |
| Lidar.Measure | rpi/lidar/lidar.go:290-317 | `distanceContinuous` from a given call on: one status read, tested as `Read` does, then the word from register 0x8f or the counting or limiting error; `Lidar.MeasureResult` and `Lidar.MeasureErrors` state its properties |
| Lidar.MeasureResult | rpi/lidar/lidar.go:290-317 | a measurement is a distance in 0..65535 with no error, or -1 with an error; the word is read only when the status read succeeds and passes the tests, and a distance is that word from register 0x8f |
| Lidar.MeasureErrors | rpi/lidar/lidar.go:305-308 | with good health, an error detected is reported as a counting error, and no signal overflow as "Automatic limiting doesn't occurs" |
| Lidar.DistanceSpec | rpi/lidar/lidar.go:175-201 | `Distance` from a given call on: the measurement alone in continuous mode, otherwise the command through the write loop first; `Lidar.DistanceCommand` states its properties |
| Lidar.DistanceCommand | rpi/lidar/lidar.go:175-201 | continuous mode never writes a command; otherwise the command (0x04 with stabilisation, else 0x03) goes first through the status loop, and its failure is returned with -1 |
| Lidar.VelocitySpec | rpi/lidar/lidar.go:208-231 | `Velocity` from a given call on: velocity mode 0xa0 to register 0x04 through the write loop, then the command 0x04 written directly to register 0x00, then `Read` of register 0x09; the lemmas below state its properties |
| Lidar.VelocityRange | rpi/lidar/lidar.go:208-231 | a velocity is a byte value 0..255 with no error, or -1 with an error |
| Lidar.VelocityAfterModeOrder | rpi/lidar/lidar.go:217-230 | after the mode write, the command 0x04 to register 0x00 is written first, and its failure stops there; a velocity is the byte last read from register 0x09 |
| Lidar.VelocityOrder | rpi/lidar/lidar.go:208-231 | the velocity mode 0xa0 is written to register 0x04 through the status loop first; its failure is returned at once, and only after it succeeds does the measurement command follow |
| Lidar.Lidar.constructor | rpi/lidar/lidar.go:65-69 | a sensor starts out of continuous mode, with the retry bound of 50 and no calls made |
| Lidar.Lidar.ReadByteFromReg | rpi/i2c/i2c.go:46-54 | one byte read on the sensor's bus, answered by the bus |
| Lidar.Lidar.ReadWordFromReg | rpi/i2c/i2c.go:57-65 | one word read on the sensor's bus, answered by the bus |
| Lidar.Lidar.WriteByteToReg | rpi/i2c/i2c.go:68-77 | one byte write on the sensor's bus, answered by the bus |
| Lidar.Lidar.GetStatus | rpi/lidar/lidar.go:153-161 | one read of register 0x01: its value and no error, or 0 and the error |
| Lidar.Lidar.Reset | rpi/lidar/lidar.go:82-87 | one write of 0x00 to register 0x00; it panics exactly when that write fails |
| Lidar.Lidar.Read | rpi/lidar/lidar.go:91-117 | the calls made and the result are those of the read loop over 50 attempts, as a Go `(byte, error)` pair |
| Lidar.Lidar.TryRead | rpi/lidar/lidar.go:93-111 | one attempt of `Read`: its calls, and whether and what it read |
| Lidar.Lidar.WriteByteToRegister | rpi/lidar/lidar.go:126-140 | the calls made and the error are those of the write loop over 50 attempts |
| Lidar.Lidar.TryWrite | rpi/lidar/lidar.go:128-136 | one attempt of `WriteByteToRegister`: its calls, and whether and with what error it wrote |
| Lidar.Lidar.DistanceContinuous | rpi/lidar/lidar.go:290-317 | the calls made and the result are those of one measurement |
| Lidar.Lidar.Distance | rpi/lidar/lidar.go:175-201 | the calls made and the result are those of the distance specification for the mode the sensor was in |
| Lidar.Lidar.CommandAndMeasure | rpi/lidar/lidar.go:183-200 | the command through the status loop, then one measurement |
| Lidar.Lidar.Velocity | rpi/lidar/lidar.go:208-231 | the calls made and the result are those of the velocity specification |
| Lidar.Lidar.VelocityAfterModeSet | rpi/lidar/lidar.go:217-230 | the part of `Velocity` after the mode write, as specified |
| Lidar.Lidar.BeginContinuous | rpi/lidar/lidar.go:240-278 | the writes made are a prefix of interval, mode (0x21 or 0x20), number of readings and start, all but the last successful; the error is the last write's, and continuous mode is entered exactly when all four succeed |
| Lidar.Lidar.StopContinuous | rpi/lidar/lidar.go:282-286 | one reset write; continuous mode is left unless the reset panicked |
| Lidar.NewLidar | rpi/lidar/lidar.go:60-73 | a bus that fails to open panics; otherwise a fresh sensor out of continuous mode whose first call is the reset, panicking exactly when the reset fails |
| Gpio.ModeShift | rpi/gpio/gpio.c:37-38 | a pin's mode field starts at three times its position in the word, at most bit 27 |
| Gpio.ModeAt | rpi/gpio/gpio.c:43-51 | a mode read from a word is a 3-bit value |
| Gpio.ModeRoundTrip | rpi/gpio/gpio.c:33-51 | setting a mode below 8 and reading it back gives that mode, and every bit outside the field is kept |
| Gpio.ModeFieldsIndependent | rpi/gpio/gpio.c:33-51 | setting another pin's mode in the same word keeps this pin's mode, and a second setting of the same pin replaces the first |
| Gpio.FieldsApart | rpi/gpio/gpio.c:37-38 | two pins sharing a mode word have fields at least three bits apart |
| Gpio.ShiftTable | rpi/gpio/gpio.c:38 | the ten field offsets of a mode word are 0, 3, ..., 27 |
| Gpio.FieldsIndependent | rpi/gpio/gpio.c:40 | a store into one field keeps a field at least three bits away |
| Gpio.FieldBelow | rpi/gpio/gpio.c:40 | a store into a higher field keeps a lower one |
| Gpio.FieldAbove | rpi/gpio/gpio.c:40 | a store into a lower field keeps a higher one |
| Gpio.FieldOverwrite | rpi/gpio/gpio.c:40 | a second store into a field replaces the first |
| Gpio.ModesFit | rpi/gpio/gpio.h:5-12 | the eight modes are distinct and each fits the 3-bit field |
| Gpio.LevelOf | rpi/gpio/gpio.c:68-72 | a level read is 0 or 1 |
| Gpio.TriggerStrobesDiffer | rpi/gpio/gpio.c:80-89 | the two strobes of a trigger hit the set and the clear register of the same bank, in the order the level asks for |
| Gpio.PinBitSingle | rpi/gpio/gpio.c:31 | a pin's bit is a single set bit of its bank word |
| Gpio.Registers.constructor | rpi/gpio/gpio.c:128-151 | the mapped block is 0xB4 bytes of 32-bit words holding the given contents, and no access has been made yet |
| Gpio.Registers.Put | rpi/gpio/gpio.c:40 | one store changes only its word and is recorded |
| Gpio.Registers.Sleep | rpi/gpio/gpio.c:57 | a pause changes no word and is recorded |
| Gpio.Registers.SetMode | rpi/gpio/gpio.c:33-41 | only the pin's mode word changes, to the old word with the field replaced; a mode below 8 then reads back |
| Gpio.Registers.GetMode | rpi/gpio/gpio.c:43-51 | the 3-bit field of the pin in its mode word |
| Gpio.Registers.Read | rpi/gpio/gpio.c:68-72 | the level is 1 exactly when the pin's bit is set in its bank's level register |
| Gpio.Registers.Write | rpi/gpio/gpio.c:74-78 | one store of the pin's bit, to the clear register for level 0 and to the set register otherwise; nothing else changes |
| Gpio.Registers.Trigger | rpi/gpio/gpio.c:80-89 | the requested level, a pause of the given length, then the opposite level, and nothing else |
| Gpio.Registers.SetPullUpDown | rpi/gpio/gpio.c:53-66 | the pull value, a 20 us pause, the clock strobe of the pin's bit, a 20 us pause, then both registers cleared |
| Gpio.Registers.Start | rpi/gpio/gpio.go:10-13 | the six accesses in order: the output-mode store into the pin's mode word, the low strobe, 18 ms, the high strobe, the input-mode store, 20 us. Only the mode word and the bank's set and clear words change, and the pin reads back as input |
| Gpio.Registers.Dht11 | rpi/gpio/gpio.go:8-24 | the start signal's six accesses and the resulting register words exactly as `Start` leaves them, then the value the sensor's pulse durations determine |
| Gpio.Receive | rpi/gpio/gpio.go:14-23 | the value of the C `DHT11` after its start signal is the one the durations determine |
| Gpio.Completed | rpi/gpio/gpio.c:114-120 | the number of pulses before the first one with a timed-out half: all of those complete and the next one does not |
| Gpio.OrPulses | rpi/gpio/gpio.c:111-126 | OR-ing pulses into a buffer keeps its length |
| Gpio.OrPulse | rpi/gpio/gpio.c:121-123 | OR-ing one pulse into a buffer keeps its length |
| Gpio.OrMaskBit | rpi/gpio/gpio.c:123 | OR-ing in a one-bit mask sets exactly that bit |
| Gpio.OrStep | rpi/gpio/gpio.c:121-123 | pulse `i` sets bit `7 - i % 8` of byte `i / 8` when it is long, and no other bit |
| Gpio.OrPulsesBits | rpi/gpio/gpio.c:111-126 | after `n` pulses, a bit is set exactly when it was set before or its pulse is among the first `n` and long |
| Gpio.PulsesRoundTrip | rpi/gpio/gpio.c:111-126 | into a zeroed buffer, pulse `i` comes back out as bit `7 - i % 8` of byte `i / 8`, set exactly when the pulse was long |
| Gpio.ReadPulses | rpi/gpio/gpio.c:111-126 | success exactly when every pulse completes; the buffer holds the bits of the pulses read before the first timeout |
| Gpio.ReadPulse | rpi/gpio/gpio.c:115-123 | one pulse: done exactly when neither half times out, and then its bit OR-ed in; otherwise the buffer is unchanged |
| Gpio.OrInto | rpi/gpio/gpio.c:121-123 | the in-place OR of one pulse into the buffer |
| Gpio.CompletedAt | rpi/gpio/gpio.c:114-120 | the pulse count stops at the first pulse that does not complete |
| Gpio.Frame | rpi/gpio/gpio.go:9-18 | the frame is five bytes |
| Gpio.Dht11Value | rpi/gpio/gpio.go:8-24 | a non-zero value needs both handshake halves within 100 us, all 40 pulses and a good checksum; with those, it is byte 0 shifted left by 8 plus byte 2 |
| Gpio.PackUnpack | rpi/gpio/gpio.go:95-99 | the Go side recovers both bytes the C side packed |
| Gpio.ZeroIsAmbiguous | rpi/gpio/gpio.go:20-23 | the packed value is 0 exactly for two zero bytes, so a failure cannot be told from a reading of 0 and 0 |
| Gpio.LevelValue | rpi/gpio/gpio.go:77-83 | true is level 1 and false level 0 |
| Gpio.PinRead | rpi/gpio/gpio.go:73-75 | a pin reads true exactly when the level is positive |
| Gpio.TriggerMicros | rpi/gpio/gpio.go:86-92 | the duration in whole microseconds, truncated toward zero |
| Gpio.WrapperWriteRegister | rpi/gpio/gpio.go:77-83 | writing true strobes the set register of the pin's bank and false the clear register |
| Dht11.StartError | drivers/dht11.go:23-36 | the start signal fails exactly when one of its four pin steps fails, and the error returned is that of the first failing step in the order output, high, low, input |
| Dht11.Samples | drivers/dht11.go:40-48 | all samples are taken exactly when every pin read succeeds, each sample the low byte of its read; otherwise the error is that of the first failing read |
| Dht11.Sample | drivers/dht11.go:40-48 | the sampling loop fills the 410-entry buffer as specified, stopping at the first read error |
| Dht11.SamplesFirstError | drivers/dht11.go:43-44 | the first failing read is the error of every longer sampling |
| Dht11.LastZero | drivers/dht11.go:52 | the index of the last zero sample, or -1 when there is none: no zero follows it |
| Dht11.DecodedBits | drivers/dht11.go:51-66 | the backward scan decodes at most 40 bits |
| Base.MaskIsShift | drivers/dht11.go:62 | the one-bit mask is the shift `1 << pos` the driver writes |
| Dht11.Packed | drivers/dht11.go:38-63 | the decoded bits always fill five bytes |
| Dht11.Unpacked | drivers/dht11.go:62 | reading `n` bits back out of bytes gives `n` bits |
| Dht11.Window | drivers/dht11.go:62 | the eight stream bits that land in one byte, false past the end of the stream |
| Dht11.ByteOfBitsBit | drivers/dht11.go:62 | reading a bit of a written-out byte gives that bit back |
| Dht11.LowBitsBit | drivers/dht11.go:62 | the same for the low four bits |
| Dht11.HighBitsBit | drivers/dht11.go:62 | the same for the high four bits |
| Dht11.ByteOfBitsAdd | drivers/dht11.go:62 | adding a bit at the lowest free position of a byte sets that bit, the `+=` never carries |
| Dht11.ByteOfBit | drivers/dht11.go:62 | bit `q` of byte `k` is stream bit `8k + q` |
| Dht11.ByteOfSnoc | drivers/dht11.go:62-63 | a new bit `j` is added into byte `j / 8` only |
| Dht11.PackedBytes | drivers/dht11.go:51-66 | each of the five bytes is the written-out byte of its eight stream bits |
| Dht11.PackedRoundTrip | drivers/dht11.go:51-66 | packing is lossless: the decoded bits come back out of the five bytes in order |
| Dht11.PackedBit | drivers/dht11.go:62 | stream bit `j` is bit `j % 8` of byte `j / 8` |
| Dht11.PackedSnoc | drivers/dht11.go:62-63 | appending a bit adds its value into its byte and changes no other byte |
| Dht11.Scan | drivers/dht11.go:51-65 | the bits of the backward scan over the samples, one per terminated run of highs; `Dht11.ScanTrain` and `Dht11.TrainDecodes` state that it inverts a pulse train |
| Dht11.ScanStep | drivers/dht11.go:53-65 | one backward step: a high sample lengthens the run; a low one after a run emits 1 for a run longer than two, else 0; a low one with no run emits nothing |
| Dht11.Decode | drivers/dht11.go:51-66 | the decoding loop's five bytes are the packed decoded bits of the samples |
| Dht11.AddBit | drivers/dht11.go:62 | the in-place `values[j/8] += bit << (j%8)` appends one decoded bit |
| Dht11.ScanAdvance | drivers/dht11.go:52-66 | the loop's relation between bits emitted and samples left holds after each of the three kinds of step |
| Dht11.ScanDone | drivers/dht11.go:52 | when the loop stops, at the first sample or after 40 bits, it has emitted exactly the decoded bits |
| Dht11.Checksum | drivers/dht11.go:68 | the sum of bytes 4, 3, 2 and 1 modulo 256 |
| Dht11.CheckFrame | drivers/dht11.go:68-75 | a frame is accepted exactly when the checksum equals byte 0; otherwise the error names both numbers in decimal |
| Dht11.Reading | drivers/dht11.go:22-76 | a start failure or a sampling failure is the error; a good reading is the packed decoded frame and its checksum matches |
| Dht11.Acquire | drivers/dht11.go:22-76 | the steps of one read give the reading specified |
| Dht11.Sensor.constructor | drivers/dht11.go:18-20 | a new driver reports temperature and humidity 0 |
| Dht11.Sensor.ReadOnce | drivers/dht11.go:22-76 | a good reading sets the temperature from byte 2 and the humidity from byte 4; a failed one returns its error and keeps both |
| Dht11.Sensor.Read | drivers/dht11.go:78-85 | the retry count, the error, the temperature and the humidity are those the retry specification gives |
| Dht11.Retried | drivers/dht11.go:78-85 | what `Read(maxRetries)` ends with over the sessions: the retries, the error and the two fields; `Dht11.RetriedOutcome` states its properties |
| Dht11.RetriedOutcome | drivers/dht11.go:78-85 | `Read` stops at the first good session and takes its frame; every session before it failed; the error is set exactly when all `maxRetries + 1` attempts failed, and is then the last attempt's error, with the old readings kept |
| Dht11.Attempts | drivers/dht11.go:79 | `maxRetries + 1` attempts, none for a negative `maxRetries` |
| Dht11.FirstGood | drivers/dht11.go:79-83 | the first session that reads a good frame, every earlier one failing |
| Dht11.FirstGoodIs | drivers/dht11.go:79-83 | later sessions do not move the first good one |
| Dht11.FirstGoodNone | drivers/dht11.go:79-83 | with no good session the index is the number of sessions |
| Dht11.ReadDht11 | gpio.go:13-65 | the same read, answering humidity (byte 4) and temperature (byte 2); every failure answers 0, 0 and the error |
| Dht11.Train | drivers/dht11.go:51-66 | a pulse train that carries bits ends with a low sample |
| Dht11.ScanOnes | drivers/dht11.go:53-54 | high samples at the end of the scanned part only lengthen the pending run |
| Dht11.ScanTrain | drivers/dht11.go:51-66 | the scan of a train gives back its bits |
| Dht11.TrainDecodes | drivers/dht11.go:51-66 | decoding inverts the train: its bits come back, at most 40 of them, whatever high samples follow the last low one |
| Dht11.LastZeroPadded | drivers/dht11.go:52 | samples after the last low one do not move it |
| Dht11.NoZeroNoBits | drivers/dht11.go:51-75 | without a low sample nothing is decoded; the frame is five zero bytes and passes the checksum |
| Dht11.FrameFields | drivers/dht11.go:68-71 | the checksum byte, the temperature and the humidity are stream bits 0-7, 16-23 and 32-39 |
| Auth.CacheAside | auth/manager.go:54-64 | a cached token comes back without a fetch; a miss fetches, and a successful fetch is cached under the user; a failed fetch leaves the cache as it was; no other user's entry changes |
| Auth.LookupTwice | auth/manager.go:54-64 | after a successful lookup the next lookup of that user comes from the cache, whatever the storage would now answer |
| Auth.GetAuthTokenStep | auth/manager.go:54-64 | the lookup returns exactly when there is a cache and either a storage client or a cached token (a nil cache or a nil client panics); it is then the cache-aside lookup |
| Auth.Compare | auth/manager.go:86-89 | a token is admitted exactly when it equals the expected one; otherwise the error is "Incorrect token supplied" |
| Auth.AsWrittenStep | auth/manager.go:67-90 | `CheckAccess` as written, taking the storage lookup when there is no client; `Auth.AsWrittenOutcomes` states its outcomes |
| Auth.CheckAccessStep | auth/manager.go:67-90 | `CheckAccess` with the lookup taken when there is a client; `Auth.CheckAccessOutcomes` states its outcomes |
| Auth.AsWrittenOutcomes | auth/manager.go:74-89 | as written, the check never asks the storage: with a storage client it admits exactly the empty token, and without one it panics on the nil cache or the nil client |
| Auth.AsWrittenAdmitsEmptyToken | auth/manager.go:74-84 | with storage holding "s3cret" for alice, the check as written admits alice's empty token and rejects "s3cret"; the corrected check does the opposite |
| Auth.CheckAccessOutcomes | auth/manager.go:67-90 | the corrected check never panics: without storage it admits exactly the empty token; with storage it admits exactly the stored, non-empty token, returns a fetch error as is, and rejects an empty stored token with "Cannot verify the token" |
| Auth.Manager.constructor | auth/manager.go:18-22 | a manager holds its cache, storage client and bucket, and has fetched nothing |
| Auth.Manager.GetAuthToken | auth/manager.go:54-64 | the outcome, the new cache and the users fetched are those of the lookup step; a panic changes nothing |
| Auth.Manager.LookupAccess | auth/manager.go:75-81 | the storage branch of the check, through `GetAuthToken` |
| Auth.Manager.CheckAccessAsWritten | auth/manager.go:67-90 | the outcome and the new state are those of the check as written |
| Auth.Manager.CheckAccess | auth/manager.go:67-90 | the outcome and the new state are those of the corrected check; it never panics, and a storage client keeps its cache |
| Auth.NewManager | auth/manager.go:25-41 | an empty bucket disables authentication (no cache, no client, no error); a client error returns no manager; otherwise a manager with an empty cache whose storage client exists exactly when the service could be created, with the service error returned |
| App.Split | main.go:125 | splitting always gives at least one piece |
| App.SplitJoin | main.go:125 | the pieces join back to the line with the separator, none holds the separator, and there is one more piece than separators |
| App.SplitJoinBack | main.go:125 | the pieces join back to the line |
| App.SplitPiecesClean | main.go:125 | no piece holds the separator |
| App.SplitCount | main.go:125 | there is one more piece than separators |
| App.SplitAfter | main.go:125 | a first piece without the separator comes off whole |
| App.SplitNone | main.go:125 | a line without the separator is one piece |
| App.ReadPasswordFromFile | main.go:113-131 | an open error is returned as is; otherwise the outcome is the scan's over the file's lines |
| App.KeyLineFields | main.go:125-127 | a line whose key is `CAPTURE_PASSWORD` has a value field exactly when it is not the bare key |
| App.PasswordOfLines | main.go:124-130 | the scan answers "Empty file" exactly when no line has the key; otherwise it panics or returns a password |
| App.PasswordAtFirstKeyLine | main.go:124-127 | the first line with the key decides: the bare key panics with index 1 out of range, any other gives the text between its first and second `=` |
| App.PasswordAtHead | main.go:124-127 | the same when the key line is the first line |
| App.PasswordValue | main.go:125-127 | the value ends at the line's next `=`, or at its end |
| App.ValidatePassword | main.go:133-142 | a password is accepted exactly when the file gave that password; a file error is returned as is, a panic propagates, and another password is "Wrong password for getting data" |
| App.ValidateAgainstFile | main.go:133-142 | a password is accepted exactly when the file's first key line has it as its value |
| App.FirstIndex | main.go:124-126 | lines that have a key line have a first one |
| App.ReadAuthFromMetadata | main.go:144-152 | a request without metadata is an error; the password is the first `authentication` value, and a missing or empty key panics |
| App.ValidateUser | main.go:154-163 | the metadata's password checked against the password file, the metadata's error or panic first; `App.ValidateUserAdmits` states when it admits |
| App.ValidateUserAdmits | main.go:154-163 | a user is admitted exactly when the request has an `authentication` value and the password file gives that value |
| App.ContainsAt | main.go:198 | `strings.Contains` is true exactly when the text occurs at some index |
| App.Routing | main.go:195-204 | the gRPC handler gets exactly the HTTP/2 requests whose Content-Type contains `application/grpc`, wherever it occurs |
| CameraProcess.NewProcess | camera/process.go:28-32 | the command runs the given program with the specific arguments first and the five shared ones after them |
| CameraProcess.OptionValue | camera/process.go:35-52 | a value found for an option is the argument right after an occurrence of the option |
| CameraProcess.OptionValueAt | camera/process.go:35-52 | the value of an option is the argument after its first occurrence |
| CameraProcess.NumberIsNotFlag | camera/process.go:37-50 | a printed number never looks like an option name, so it cannot shadow one |
| CameraProcess.VideoOptions | camera/process.go:35-43 | in the video argument list each option names its own value: width, height, a zero timeout and the frame rate |
| CameraProcess.VideoSize | camera/process.go:37-38 | the width and height options of the video list name their values |
| CameraProcess.VideoTiming | camera/process.go:39-40 | the timeout option of the video list is 0 and the frame rate option names its value |
| CameraProcess.PictureOptions | camera/process.go:46-52 | in the picture argument list width, height and quality name their values |
| CameraProcess.VideoArguments | camera/process.go:35-43 | the video process is `raspivid` with width, height and frame rate as printed, a zero timeout, stabilisation, and output to stdout last |
| CameraProcess.PictureArguments | camera/process.go:46-52 | the picture process is `raspistill` with width, height and quality as printed, and output to stdout last |
| CameraProcess.TrimStart | camera/process.go:83 | the first non-space index at or after a position: everything skipped is white space |
| CameraProcess.TrimEnd | camera/process.go:83 | the index just past the last non-space character of a slice: everything cut is white space |
| CameraProcess.TrimSpace | camera/process.go:83 | `strings.TrimSpace` keeps a slice with only white space around it, and the result neither starts nor ends with white space |
| CameraProcess.TrimUnchanged | camera/process.go:83 | a text without white space at either end is its own trimming |
| CameraProcess.TrimSpaceIdempotent | camera/process.go:83 | trimming twice is trimming once |
| CameraProcess.TrimKeepsHead | camera/process.go:83 | a text that starts and ends with a non-space character survives the trimming of anything appended to it |
| CameraProcess.Trimmed | camera/process.go:82-84 | each message line trimmed, in order |
| CameraProcess.Run | camera/process.go:55-88 | the error `Run` returns for the way the process ended and what it wrote to stderr, as specified |
| CameraProcess.TrimAll | camera/process.go:82-84 | the in-place loop trims every line |
| CameraProcess.RunErrorCases | camera/process.go:59-74 | there is no error exactly when the process succeeded or was killed by SIGPIPE |
| CameraProcess.RunErrorStartsWithFailure | camera/process.go:60 | every error message starts with "Failed to render a capture:" |
| CameraProcess.LabelEnds | camera/process.go:60 | that label has no white space at either end |
| CameraProcess.TrimmedJoinHead | camera/process.go:82-85 | trimming and joining keeps the first line's non-space head at the front |
| CameraProcess.RunErrorNotExit | camera/process.go:60-85 | an error that is not an exit gives the trimmed failure line alone, whatever stderr holds |
| CameraProcess.RunErrorBusy | camera/process.go:63-85 | exit code 70 adds the busy hint as the second line, and the stderr details, when there are any, as the third |
| CameraProcess.RunErrorDetails | camera/process.go:76-85 | any other exit gives the failure line and, when stderr is not empty, the details line |
| CameraProcess.TrimmedJoin1 | camera/process.go:82-85 | one line joins to its trimming |
| CameraProcess.TrimmedJoin2 | camera/process.go:82-85 | two lines join to their trimmings with a newline between |
| CameraProcess.TrimmedJoin3 | camera/process.go:82-85 | three lines join to their trimmings with newlines between |
| CameraServer.ScanDigits | camera/server.go:56 | the digit loop of `strconv.Atoi` yields only values that fit 64 unsigned bits |
| CameraServer.ScanDigitsValue | camera/server.go:56 | the digit scan succeeds exactly on digit strings whose value fits 64 bits, and then gives that value |
| CameraServer.Atoi | camera/server.go:56 | a number parsed without error fits Go's 64-bit `int` |
| CameraServer.AtoiAccepts | camera/server.go:56 | `Atoi` accepts exactly an optionally signed, non-empty run of digits whose signed value fits 64 bits, and then returns that value |
| CameraServer.DigitsOfNat | camera/server.go:56 | the printed digits of a natural number denote it |
| CameraServer.AtoiItoa | camera/process.go:37-50 | parsing a printed 64-bit number gives it back with no error |
| CameraServer.Ext | camera/server.go:77 | a non-empty extension starts with '.' and is a suffix of the path |
| CameraServer.ExtBefore | camera/server.go:77 | the backward scan for the extension finds a suffix starting with '.' |
| CameraServer.ExtJpg | camera/server.go:77-79 | a path has the extension ".jpg" exactly when it ends with ".jpg" |
| CameraServer.EndsWithJpg | camera/server.go:77-79 | a path ending with ".jpg" has that extension |
| CameraServer.CommandsAgree | camera/server.go:17-37 | the handler's two command lines use the same programs and hold the same arguments, in another order, as the two process builders |
| CameraServer.Reorder | camera/server.go:17-37 | moving pieces of an argument list around keeps its multiset of arguments |
| CameraServer.SameVideoArguments | camera/server.go:17-27 | the handler's `raspivid` list is a reordering of the video process list |
| CameraServer.SamePictureArguments | camera/server.go:29-37 | the handler's `raspistill` list is a reordering of the picture process list |
| CameraServer.GetIntHeader | camera/server.go:50-61 | an absent header keeps the value; a present one becomes `Atoi`'s value and error |
| CameraServer.Handler | camera/server.go:64-116 | the handler's steps give the reply specified |
| CameraServer.Resolve | camera/server.go:72-98 | the settings a request resolves to, or the first malformed header's error; `CameraServer.Defaults`, `CameraServer.SizeHeadersWin`, `CameraServer.BadHeaderRejected` and `CameraServer.SettingsInRange` state its properties |
| CameraServer.ReadSettings | camera/server.go:72-98 | the settings steps, in the source's order, give the resolved settings or the first malformed header's error |
| CameraServer.ForbiddenExactly | camera/server.go:67-70 | the reply is 403 exactly when the password is rejected, and then it runs nothing and says "403 Forbidden" |
| CameraServer.BadHeaderRejected | camera/server.go:50-98 | after the password, the reply is 400 exactly when a header is malformed, and then it runs nothing and carries the parse error |
| CameraServer.Defaults | camera/server.go:72-91 | without headers a ".jpg" path captures a 2592x1944 picture of quality 80, and any other path streams 640x480 video at 20 frames per second |
| CameraServer.SizeHeadersWin | camera/server.go:84-98 | a given width, height or frame rate header is the setting used, over every default |
| CameraServer.SettingsInRange | camera/server.go:72-98 | every resolved setting is a 64-bit number |
| CameraServer.CaptureChoice | camera/server.go:100-115 | a positive frame rate runs `raspivid` with H.264 content, any other `raspistill` with JPEG; the reply is 500 exactly when the capture fails, else 200 |
| CameraServer.CommandCarriesSettings | camera/server.go:100-109 | the capture command carries the width, height and frame rate (video) or quality (picture) where they parse back to the settings |
| CameraServer.VideoCarries | camera/server.go:17-27 | the `raspivid` list carries width, height and frame rate, parsing back to them |
| CameraServer.PictureCarries | camera/server.go:29-37 | the `raspistill` list carries width, height and quality, parsing back to them |
| CameraServer.VideoPositions | camera/server.go:17-27 | the positions of the options and values in the `raspivid` list |
| CameraServer.PicturePositions | camera/server.go:29-37 | the positions of the options and values in the `raspistill` list |
| Dns.MaxTtl | network/dns.go:84-91 | the TTL `UpdateDNS` waits for, folded over the listing; `Dns.MaxTtlIsMaximum` proves it is the maximum of the desired and the matching TTLs |
| Dns.Staged | network/dns.go:81-104 | the change built from a listing: the desired set unless an identical one is listed, and the deletions; `Dns.DeletionsSplit`, `Dns.NoOpIffSingleIdentical` and `Dns.AtMostOneAddition` state its properties |
| Dns.StageChange | network/dns.go:81-104 | the diff loop over the listing builds the staged change and the largest TTL, as specified |
| Dns.MaxTtlBounds | network/dns.go:84-91 | the TTL waited for is at least the desired TTL and at least the TTL of every listed record set with the desired name and type |
| Dns.MaxTtlAttained | network/dns.go:84-91 | that TTL is the desired one or the TTL of such a listed record set |
| Dns.MaxTtlIsMaximum | network/dns.go:84-91 | that TTL is the maximum of the desired TTL and the matching TTLs |
| Dns.OtherRecordsIgnored | network/dns.go:88 | a record set with another name or type changes neither the deletions, the TTL, nor whether an identical record set exists |
| Dns.DeletionsAreMatching | network/dns.go:92-100 | without an identical record set every matching one is deleted; with one, exactly one matching record set is kept |
| Dns.DeletionsSplit | network/dns.go:92-100 | the deletions are the matching record sets in listing order with the first identical one left out |
| Dns.NoOpIffSingleIdentical | network/dns.go:109-111 | the change is empty, and nothing is sent, exactly when the listing holds one record set of the desired name and type and it is identical |
| Dns.MatchingAllSameKey | network/dns.go:88 | the matching record sets all have the desired name and type, and come from the listing |
| Dns.IdenticalInMatching | network/dns.go:92-94 | an identical record set is listed exactly when one of the matching record sets is identical |
| Dns.AtMostOneAddition | network/dns.go:81-96 | the change adds at most one record set, the desired one, and adds nothing exactly when an identical one is listed |
| Dns.FirstTerminal | network/dns.go:61-75 | the first event that ends the poll: every earlier one is a tick whose `Get` reported a pending change |
| Dns.PollCompletion | network/dns.go:61-75 | the poll loop's result and number of `Get` calls are those of the first event that ends it |
| Dns.FirstTerminalAt | network/dns.go:61-75 | the poll ends at the first event that ends it |
| Dns.PollSemantics | network/dns.go:61-75 | the poll succeeds exactly when a `Get` answers "done" before anything else ends it; it fails with a `Get` error, or with the context's error when the context is done first |
| Dns.Gets | network/dns.go:66 | `n` calls to `Changes.Get` |
| Dns.UpdateDns | network/dns.go:79-132 | a listing error is returned after one list call; an empty change ends with success after the list call; otherwise the change is created, a create error is returned, and else the poll's outcome is returned after its `Get` calls, followed by a sleep of the largest TTL when asked for and the poll succeeded |
| Dns.SleepOnlyAfterCompletion | network/dns.go:122-129 | the propagation wait happens exactly when it was asked for and a `Get` answered "done" first |
| Dns.IdenticalRecordIsKept | network/dns.go:92-111 | a listing that holds the desired record set leads to no change |
| Dns.OutdatedRecordIsReplaced | network/dns.go:84-100 | an outdated record set is deleted and the desired one added, and the wait is the larger, old TTL |
| Dns.NoMatchOnlyAdds | network/dns.go:81-88 | with no record set of the desired name and type, the change only adds the desired one |
| Dns.NoMatchEmpty | network/dns.go:88 | with no such record set nothing matches |
| Acme.ReadKey | network/acme.go:41-54 | a key comes back exactly when the file exists, its first PEM block decodes, is an EC key and parses; a file without a PEM block is the "Key block not found" error naming the file |
| Acme.WriteKey | network/acme.go:56-74 | the write succeeds exactly when the file can be opened and the key marshals, and then the file holds the key's PEM block; an unopenable file changes nothing; no other file changes |
| Acme.ReadOrCreateKey | network/acme.go:76-87 | a readable key is used without any other action; otherwise a key is generated, and a generated key is returned together with the outcome of writing it |
| Acme.CreatedKeyIsReused | network/acme.go:76-87 | once a key was read or created without error, the next call reads that key back and generates nothing |
| Acme.ReadAccount | network/acme.go:89-96 | an account comes back exactly when the file exists and decodes |
| Acme.WriteAccount | network/acme.go:98-104 | the write succeeds exactly when the account encodes and the file is writable, and then the file holds the encoding; a failure changes nothing |
| Acme.NewAcmeClient | network/acme.go:107-129 | a directory error stops everything; a key error returns no client; the CA is asked to register exactly when the key is ready and no account file reads; a registration error returns no client, a new registration is written out; without error a client for the directory comes back; the client's key is the read-or-created key, and a stored account that reads back is reused as is, with no further call or write |
| Acme.AccountIsReused | network/acme.go:107-129 | a second setup against the same directory registers nothing and returns the same client and files |
| Acme.CertpairPath | network/acme.go:132-135 | the certificate and key paths are the primary domain's path in the work directory with ".crt" and ".key" |
| Acme.CertpairPathsDistinct | network/acme.go:132-135 | the two paths never coincide, and they depend only on the primary domain |
| Acme.FirstDns01 | network/acme.go:182-183 | the first challenge of type "dns-01", if any, and none before it |
| Acme.ChallengeRecordSet | network/acme.go:189-194 | the challenge answer is the TXT record `_acme-challenge.<domain>.` with TTL 60 and the challenge text |
| Acme.AuthorizeDomain | network/acme.go:174-206 | the CA is asked about the domain first, and a failure there is returned after that one call; the only DNS update is the TXT set `_acme-challenge.<domain>.` with one value, TTL 60 and a propagation wait; only a dns-01 challenge is accepted; success means the authorization was already valid or the interaction ended with the successful wait |
| Acme.ChallengeRecordErrorPasses | network/acme.go:184-188 | a failed challenge-record computation for the chosen dns-01 challenge is returned as is, after two interactions and before any DNS update |
| Acme.ValidAuthorizationShortCircuits | network/acme.go:179-181 | an authorization the CA already holds as valid costs one call and writes no DNS record |
| Acme.NoDns01Fails | network/acme.go:205 | a pending authorization without a dns-01 challenge fails naming the domain |
| Acme.PendingAuthorizationOrder | network/acme.go:182-203 | a pending authorization goes through authorize, DNS update, accept and wait in this order, stopping at the first failure; it succeeds exactly when all five steps ran and the wait succeeded |
| Acme.AuthorizeAll | network/acme.go:138-142 | the domains are authorized in order until the first failure: all before it succeeded and its error is returned; no error exactly when all succeeded |
| Acme.CsrFor | network/acme.go:150-154 | the request names the primary domain as Common Name and every domain as a DNS name |
| Acme.PemChainAppend | network/acme.go:167-170 | the certificate file of a chain is the files of its parts, one after another |
| Acme.EncodeChain | network/acme.go:167-170 | the loop encodes each certificate of the chain as a PEM block, in order |
| Acme.RequestAndWriteCertificate | network/acme.go:137-172 | authorization failure, key failure, request failure, CA failure and write failure each stop there with their error and the files and interactions up to that step; success writes the whole chain to the certificate path |
| Acme.AuthorizeAllSnoc | network/acme.go:138-142 | after a successful run, one more domain extends it by its own outcome |
| Acme.SnocStep | network/acme.go:138-142 | the inductive step of that extension |
| Acme.AuthorizeAllPrefix | network/acme.go:138-142 | once a prefix of the domains fails, the rest are never authorized |
| Acme.FailureStopsAuthorization | network/acme.go:138-142 | the first failing domain's error is returned; the domains before it are the ones authorized, and none after it is asked about |
| Acme.FailureCount | network/acme.go:138-142 | the first failing domain gives the error and the number of domains authorized |
| Acme.FailureEvents | network/acme.go:138-142 | no domain after the first failing one is asked about |
| Acme.AuthorizeEventsName | network/acme.go:174-175 | the only domain an authorization asks the CA about is its own |
| Acme.CheckOrRefreshCertificate | network/acme.go:210-219 | an existing certificate file is kept with nothing asked; a missing one leads to a full request, which starts by authorizing the primary domain; success leaves a certificate file |
| Rpc.GetFirstValue | rpc/server.go:45-51 | a key with exactly one value gives it; no value or several are the "Metadata key not found" error naming the key |
| Rpc.GetUserAndToken | rpc/server.go:53-64 | a request without metadata is an error; the user comes first and the token is looked up only when the user was found; no error exactly when both keys have one value each |
| Rpc.CredentialsRoundTrip | rpc/server.go:53-64 | a request carrying one user and one token gives them back, and a second user value is refused |
| Rpc.Checked | rpc/server.go:66-73 | a credentials error is returned before the manager is asked; otherwise the manager's check decides |
| Rpc.Writes | rpc/server.go:86-99 | writes are issued in order until one fails: no error exactly when every write succeeded, else the error of the last one issued |
| Rpc.ReadsBeforeFailure | rpc/server.go:178-189 | the number of encoder reads before the first failing one: all of those succeed and the next one, if any, fails |
| Rpc.Server.constructor | rpc/server.go:22-26 | a server holds its manager, the presence of the motor controller and of the board, and has made no calls |
| Rpc.Server.CheckAccess | rpc/server.go:66-73 | the outcome and the manager's new cache are those of the check on the request's credentials |
| Rpc.Server.Write | mc/mc.go:77-84 | one motor write on the controller's bus, answered by the bus |
| Rpc.Server.ReadEncoder | mc/mc.go:87-96 | one 4-byte read of an encoder register; a good read decodes the little-endian `int32` |
| Rpc.Server.MoveRover | rpc/server.go:76-101 | access is checked first and its error returned as is; without a motor controller nothing is written; otherwise left and right speeds, then both motors at 0, stopping at the first failing write |
| Rpc.Server.MoveMotors | rpc/server.go:86-99 | the four motor writes, up to and including the first failing one |
| Rpc.Server.ReadEncoders | rpc/server.go:165-196 | access first, then the controller's presence, then the four encoders in order; the first failing read becomes an Unavailable error, and otherwise the four decoded values come back |
| Rpc.Server.ReadAll | rpc/server.go:177-195 | the four encoder reads, up to the first failure, as the gRPC answer |
| Rpc.Server.BoardQuery | rpc/server.go:103-162 | access first, then the board's presence; the board is queried once, and a failed query becomes an Unavailable error with its message |
| Rpc.MovePrefixes | rpc/server.go:86-99 | the first failing of the four writes ends `MoveRover` with its error after that many writes |
| Rpc.MoveRoverWrites | rpc/server.go:86-99 | the four writes put the truncated left and right speeds on the left and right motor registers and then 0 on both; the move succeeds exactly when all four writes succeed |

## Left out

- Network clients are oracles whose results are inputs, and pagination is one flattened sequence. This covers the Google Cloud DNS API, `NewDNSClient` credential loading (network/dns.go:23-52), the ACME client calls and the storage-bucket read (auth/manager.go:43-52).
- Crypto and encoding become uninterpreted inputs: ECDSA key generation, x509 CSR creation, EC key marshalling, PEM encoding and decoding, the DNS-01 record value, and JSON for the account.
- The filesystem is a map from path to bytes plus a set of unwritable paths. Permission bits and `MkdirAll` are not modelled.
- Acme.WriteKey: the logging of a failed close (network/acme.go:66-72) is not modelled; only the write's outcome is.
- Time is not modelled: `time.Sleep`, the poll's 500 ms ticker and start-time log, the lidar and DHT11 sleeps, and the propagation wait's duration. The wait is recorded as an event carrying `maxTtl`.
- gpioReadPulse's `clock_gettime` loop (rpi/gpio/gpio.c:96-109) is not modelled. Each half-pulse's duration, or its time-out, is an input.
- `mmap` of `/dev/gpiomem` (`gpioInitialise`, rpi/gpio/gpio.c:128-151) is not modelled. The block's words when it is mapped, the level words included, are a parameter of `Gpio.Registers.constructor`.
- Gpio.Registers.Read: the hardware changing a pin's level between accesses is not modelled. The level words keep their mapped contents, or whatever was last stored into them.
- Pin direction, level and unexporting through sysfs (drivers/gpio.go) are not modelled. Pin operations are oracle results.
- The token cache's five-minute expiry (auth/manager.go:32) is not modelled: cached entries never expire. The bucket oracle answers as a function of the user alone.
- The bus mutex in rpi/i2c/i2c.go is not modelled, because the model is sequential. Neither is the close of the lidar and bus devices (rpi/lidar/lidar.go:143-150, rpi/i2c/i2c.go:92-96), which only releases the file descriptor.
- ioctl and SMBus system calls are oracles indexed by the call number.
- bb/bb.h defines no `MODULE_PAN_TILT` (or `MODULE_ARM`), so `Board.Pan` and `Board.Tilt` take the pan/tilt module's id as a parameter.
- Motors.ReadEncoder: does not model the error of `binary.Read`, which cannot fail on a 4-byte buffer.
- Lidar: the velocity reading is returned as the raw byte 0..255, as the code does. It is not reinterpreted as a signed value.
- Go `int` is taken to be 64 bits wide. Widths that matter (bytes, `int32`, the C `unsigned` words) are written out explicitly.
- The HTTP and gRPC servers of main.go are not modelled: `getError`, the gRPC `server` methods `MoveRover`, `GetBatteryPercentage`, `GetAmbientLight`, `GetTemperatureAndHumidity` and `ReadEncoders` (main.go:42-111 and main.go:165-193), the server wiring in `startServer` (main.go:206-235), `main`, listening and TLS.
- Camera: the capture subprocess and its stdout streaming are not modelled. The process outcome and stderr are inputs. A 500 written after streaming has begun is modelled as the status decision only.
- CameraServer.Quote: the `\u` and `\U` escapes Go writes for characters above DEL that `unicode.IsPrint` rejects are not modelled, because they need Unicode's printability tables; such characters are copied through, so the `Atoi` error text in a 400 reply differs for them. The named escapes and the `\x` escapes of the other control characters and DEL are modelled. Invalid UTF-8, which Go writes as `\x`, cannot occur in a Dafny string.
- Header names are matched exactly. Go's canonical case folding of header keys is not modelled.
- App.ReadPasswordFromFile: the file's lines are an input, as the line scanner delivers them. `bufio.Scanner`'s line splitting, its length limit and its ignored scan error are not modelled.
- Rpc: each board handler is one query whose readings are inputs, and a gRPC error that is not translated is carried as `Raw` (status Unknown on the wire).
- Rpc uses the corrected `CheckAccess` from `Auth`; the as-written check is modelled and exhibited in `Auth`.
- Acme.CertpairPath: requires a non-empty domain list. Go indexes `domains[0]` (network/acme.go:133) and panics on an empty list; that panic is excluded by the precondition instead of being modelled.
- Acme.RequestAndWriteCertificate: requires a non-empty domain list. With an empty list Go authorizes nothing and then panics in `GetDomainsCertpairPath` (network/acme.go:138-144); that path is not modelled.
- Acme.CheckOrRefreshCertificate: requires a non-empty domain list. Go panics at `GetDomainsCertpairPath` before any stat (network/acme.go:213); that path is not modelled.
- Certificate expiry and renewal are not checked; the code has only a TODO for them (network/acme.go:211-212).
- Logging (`log.Printf`, `fmt.Println`) is omitted. `log.Panic` and nil dereferences are modelled as `Panicked` outcomes.
- Not part of this model: network/nat.go (UPnP), rpi/vchi and the VideoCore bindings, rande's C `random`, sim800's GPIO toggling, cgo/cgo.go, and the command-line `main` loops (rpi/lidar/main/main.go, and `main` in lidar.go and gpio.go).

Behaviour of the code worth noting:
- Dns: when several existing record sets are identical to the desired one, the first one listed is kept. Every other matching set is deleted, identical or not, because the addition has already been dropped (network/dns.go:92-99).
- Dns: `maxTtl` counts every matching record set, including the one that is kept (network/dns.go:88-91).
- Acme: an existing certificate file is never checked for expiry. Only its existence is tested (network/acme.go:211-217).
- Gpio: the C frame check of rpi/gpio/gpio.go:19 adds the four bytes in `int`, with no wrap-around. The Go decoders add them as bytes, modulo 256 (drivers/dht11.go:68, gpio.go:59). Both are modelled as written.

## Findings

| source | as written | input that shows it | evidently intended | confidence | as-written member | corrected member |
|---|---|---|---|---|---|---|
| auth/manager.go:74 | `if am.gcs == nil` takes the storage lookup only when there is no storage client; with a client the expected token is `""` | a manager with a client, where user alice's stored token is "s3cret": token "" is admitted and "s3cret" is refused; with authentication disabled, the cache is nil and is dereferenced | `if am.gcs != nil`: look the token up when a client exists | not executed | Auth.AsWrittenAdmitsEmptyToken | Auth.CheckAccessOutcomes |
