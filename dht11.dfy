/** The DHT11 reader of drivers/dht11.go and its copy `ReadDHT11` in gpio.go: sample
    the data pin 410 times, decode bits from the runs of high samples scanning
    backward from the last low sample, pack them LSB first into five bytes and check
    the byte checksum. Both Go functions run the same decoder; it is defined once here. */
module Dht11 {
  import opened Base

  const ValueCount: nat := 5
  const BitCount: nat := 8 * ValueCount
  /** The sample buffer: ten samples per bit, for 41 bits. */
  const SampleCount: nat := (ValueCount * 8 + 1) * 10

  /** The outcomes one read of the sensor gets from the pin: the four steps of the start
      signal, then the k-th sample read. The sleeps between them are not modelled. */
  datatype PinSession = PinSession(
    setOutput: Option<Error>,
    writeHigh: Option<Error>,
    writeLow: Option<Error>,
    setInput: Option<Error>,
    read: nat -> Result<int, Error>)

  /** The first failing step of the start signal, in the order the driver runs them. */
  function StartError(p: PinSession): (e: Option<Error>)
    ensures e.None? <==> p.setOutput.None? && p.writeHigh.None? && p.writeLow.None? && p.setInput.None?
    ensures p.setOutput.Some? ==> e == p.setOutput
    ensures p.setOutput.None? && p.writeHigh.Some? ==> e == p.writeHigh
    ensures p.setOutput.None? && p.writeHigh.None? && p.writeLow.Some? ==> e == p.writeLow
    ensures p.setOutput.None? && p.writeHigh.None? && p.writeLow.None? ==> e == p.setInput
  {
    if p.setOutput.Some? then p.setOutput
    else if p.writeHigh.Some? then p.writeHigh
    else if p.writeLow.Some? then p.writeLow
    else p.setInput
  }

  /** Go's `byte(pulse)`. */
  function SampleByte(pulse: int): bv8
  {
    (pulse % 256) as bv8
  }

  /** The first `n` samples, or the first read error. */
  function Samples(read: nat -> Result<int, Error>, n: nat): (r: Result<seq<bv8>, Error>)
    ensures r.Ok? <==> forall i :: 0 <= i < n ==> read(i).Ok?
    ensures r.Ok? ==> |r.value| == n && forall i :: 0 <= i < n ==> r.value[i] == SampleByte(read(i).value)
    ensures r.Err? ==> exists i :: 0 <= i < n && read(i) == Err(r.error) && forall k :: 0 <= k < i ==> read(k).Ok?
  {
    if n == 0 then Ok([])
    else match Samples(read, n - 1)
      case Err(e) => Err(e)
      case Ok(s) =>
        match read(n - 1)
        case Err(e) => Err(e)
        case Ok(v) => Ok(s + [SampleByte(v)])
  }

  /** Fills the sample buffer, one pin read per entry; the first read error aborts. */
  method Sample(p: PinSession) returns (r: Result<seq<bv8>, Error>)
    ensures r == Samples(p.read, SampleCount)
  {
    var pulses := new bv8[SampleCount];
    for i := 0 to SampleCount
      invariant Samples(p.read, i) == Ok(pulses[..i])
    {
      match p.read(i)
      case Err(e) =>
        SamplesFirstError(p.read, SampleCount, i);
        return Err(e);
      case Ok(v) =>
        pulses[i] := SampleByte(v);
        assert pulses[..i + 1] == pulses[..i] + [pulses[i]];
    }
    assert pulses[..SampleCount] == pulses[..];
    return Ok(pulses[..]);
  }

  /** The first failing read is the error of every longer sampling. */
  lemma {:induction false} SamplesFirstError(read: nat -> Result<int, Error>, n: nat, i: nat)
    requires i < n && Samples(read, i).Ok? && read(i).Err?
    ensures Samples(read, n) == Err(read(i).error)
  {
    if n > i + 1 {
      SamplesFirstError(read, n - 1, i);
    }
  }

  /** `bytes.LastIndexByte(s, 0)`: the index of the last zero sample, or -1. */
  function LastZero(s: seq<bv8>): (k: int)
    ensures -1 <= k < |s|
    ensures k >= 0 ==> s[k] == 0
    ensures forall i :: k < i < |s| ==> s[i] != 0
  {
    if s == [] then -1
    else if s[|s| - 1] == 0 then |s| - 1
    else LastZero(s[..|s| - 1])
  }

  /** The bits the backward scan emits from `s`, starting with a run of `run` high
      samples already counted: every run of samples equal to 1 that ends (on the
      lower-index side) at another sample gives one bit, 1 exactly when the run is
      longer than two samples. A run reaching index 0 gives none. */
  function Scan(s: seq<bv8>, run: nat): seq<bool>
  {
    if s == [] then []
    else if s[|s| - 1] == 1 then Scan(s[..|s| - 1], run + 1)
    else if run > 0 then [run > 2] + Scan(s[..|s| - 1], 0)
    else Scan(s[..|s| - 1], 0)
  }

  /** The bits `readOnce` decodes: the scan from the last zero sample down, at most 40. */
  function DecodedBits(pulses: seq<bv8>): (bits: seq<bool>)
    ensures |bits| <= BitCount
  {
    var all := Scan(pulses[..LastZero(pulses) + 1], 0);
    if |all| <= BitCount then all else all[..BitCount]
  }

  /** The byte Go adds for decoded bit value `b` at position `pos`: `byte(value << pos)`. */
  function BitValue(b: bool, pos: nat): bv8
    requires pos < 8
  {
    if b then Mask(pos) else 0
  }

  /** The five bytes after adding decoded bit j into `values[j/8]` at position `j%8`,
      for every bit in order, starting from zero bytes. */
  function Packed(bits: seq<bool>): (values: seq<bv8>)
    requires |bits| <= BitCount
    ensures |values| == ValueCount
  {
    if bits == [] then [0, 0, 0, 0, 0]
    else
      var j := |bits| - 1;
      var prev := Packed(bits[..j]);
      prev[j / 8 := prev[j / 8] + BitValue(bits[j], j % 8)]
  }

  /** The first `n` bits stored LSB first in `values`. */
  function Unpacked(values: seq<bv8>, n: nat): (bits: seq<bool>)
    requires n <= 8 * |values|
    ensures |bits| == n
  {
    seq(n, j requires 0 <= j < n => BitAt(values[j / 8], j % 8))
  }

  /** The eight stream bits that land in byte `k`, false past the end. */
  function Window(bits: seq<bool>, k: nat): (w: seq<bool>)
    ensures |w| == 8
    ensures forall q :: 0 <= q < 8 ==> (w[q] <==> 8 * k + q < |bits| && bits[8 * k + q])
  {
    seq(8, q requires 0 <= q < 8 => 8 * k + q < |bits| && bits[8 * k + q])
  }

  /** The byte holding eight bits, LSB first. */
  function ByteOfBits(c: seq<bool>): bv8
    requires |c| == 8
  {
    BitValue(c[0], 0) | BitValue(c[1], 1) | BitValue(c[2], 2) | BitValue(c[3], 3) |
    BitValue(c[4], 4) | BitValue(c[5], 5) | BitValue(c[6], 6) | BitValue(c[7], 7)
  }

  /** Byte `k` of the packed stream written out: bits `8k` to `8k+7`, LSB first. */
  function ByteOf(bits: seq<bool>, k: nat): bv8
  {
    ByteOfBits(Window(bits, k))
  }

  /** Reading bit `q` of a written-out byte gives the bit back. */
  lemma ByteOfBitsBit(c: seq<bool>, q: nat)
    requires |c| == 8 && q < 8
    ensures BitAt(ByteOfBits(c), q) <==> c[q]
  {
    if q < 4 {
      LowBitsBit(c, q);
    } else {
      HighBitsBit(c, q);
    }
  }

  lemma LowBitsBit(c: seq<bool>, q: nat)
    requires |c| == 8 && q < 4
    ensures BitAt(ByteOfBits(c), q) <==> c[q]
  {
    if q == 0 {} else if q == 1 {} else if q == 2 {} else {}
  }

  lemma HighBitsBit(c: seq<bool>, q: nat)
    requires |c| == 8 && 4 <= q < 8
    ensures BitAt(ByteOfBits(c), q) <==> c[q]
  {
    if q == 4 {} else if q == 5 {} else if q == 6 {} else {}
  }

  /** Adding a bit at the lowest free position sets it. */
  lemma ByteOfBitsAdd(c: seq<bool>, q: nat, b: bool)
    requires |c| == 8 && q < 8
    requires forall i :: q <= i < 8 ==> !c[i]
    ensures ByteOfBits(c[q := b]) == ByteOfBits(c) + BitValue(b, q)
  {
    if q == 0 {} else if q == 1 {} else if q == 2 {} else if q == 3 {}
    else if q == 4 {} else if q == 5 {} else if q == 6 {} else {}
  }

  /** Reading bit `q` of byte `k` gives stream bit `8k+q` back. */
  lemma ByteOfBit(bits: seq<bool>, k: nat, q: nat)
    requires q < 8
    ensures BitAt(ByteOf(bits, k), q) <==> 8 * k + q < |bits| && bits[8 * k + q]
  {
    ByteOfBitsBit(Window(bits, k), q);
  }

  /** Appending bit `b` as bit j adds it into byte `j/8`, which had no bit from
      position `j%8` up, and leaves the other bytes alone. */
  lemma ByteOfSnoc(bits: seq<bool>, b: bool, k: nat)
    ensures var j := |bits|;
      ByteOf(bits + [b], k) == if k == j / 8 then ByteOf(bits, k) + BitValue(b, j % 8) else ByteOf(bits, k)
  {
    var j := |bits|;
    var t := bits + [b];
    if k == j / 8 {
      var q := j % 8;
      assert Window(t, k) == Window(bits, k)[q := b] by {
        forall i | 0 <= i < 8
          ensures Window(t, k)[i] == Window(bits, k)[q := b][i]
        {
          if 8 * k + i < j { assert t[8 * k + i] == bits[8 * k + i]; }
        }
      }
      assert j == 8 * k + q;
      forall i | q <= i < 8
        ensures !Window(bits, k)[i]
      {
        assert 8 * k + i >= j;
      }
      ByteOfBitsAdd(Window(bits, k), q, b);
    } else {
      assert Window(t, k) == Window(bits, k) by {
        forall i | 0 <= i < 8
          ensures Window(t, k)[i] == Window(bits, k)[i]
        {
          if 8 * k + i < j {
            assert t[8 * k + i] == bits[8 * k + i];
          }
        }
      }
    }
  }

  /** Each byte of `Packed` is the written-out byte of the stream. */
  lemma {:induction false} PackedBytes(bits: seq<bool>)
    requires |bits| <= BitCount
    ensures forall k :: 0 <= k < ValueCount ==> Packed(bits)[k] == ByteOf(bits, k)
  {
    if bits == [] {
      forall k | 0 <= k < ValueCount
        ensures Packed(bits)[k] == ByteOf(bits, k)
      {
        assert forall i :: 0 <= i < 8 ==> !Window(bits, k)[i];
      }
    } else {
      var j := |bits| - 1;
      PackedBytes(bits[..j]);
      assert bits[..j] + [bits[j]] == bits;
      forall k | 0 <= k < ValueCount
        ensures Packed(bits)[k] == ByteOf(bits, k)
      {
        ByteOfSnoc(bits[..j], bits[j], k);
      }
    }
  }

  /** Packing is lossless: the bits come back out of the bytes in order. */
  lemma PackedRoundTrip(bits: seq<bool>)
    requires |bits| <= BitCount
    ensures Unpacked(Packed(bits), |bits|) == bits
  {
    var u := Unpacked(Packed(bits), |bits|);
    forall j | 0 <= j < |bits|
      ensures u[j] == bits[j]
    {
      PackedBit(bits, j);
    }
  }

  /** Bit j of the stream is bit `j%8` of byte `j/8`. */
  lemma PackedBit(bits: seq<bool>, j: nat)
    requires j < |bits| <= BitCount
    ensures BitAt(Packed(bits)[j / 8], j % 8) <==> bits[j]
  {
    PackedBytes(bits);
    ByteOfBit(bits, j / 8, j % 8);
    assert 8 * (j / 8) + j % 8 == j;
  }

  /** Appending a bit adds it into its byte. */
  lemma PackedSnoc(bits: seq<bool>, b: bool)
    requires |bits| < BitCount
    ensures var j := |bits|;
      Packed(bits + [b]) == Packed(bits)[j / 8 := Packed(bits)[j / 8] + BitValue(b, j % 8)]
  {
    var s := bits + [b];
    assert s[..|bits|] == bits && s[|s| - 1] == b;
  }

  /** One step of the backward scan. */
  lemma ScanStep(s: seq<bv8>, i: nat, run: nat)
    requires i < |s|
    ensures Scan(s[..i + 1], run) ==
      if s[i] == 1 then Scan(s[..i], run + 1)
      else if run > 0 then [run > 2] + Scan(s[..i], 0)
      else Scan(s[..i], 0)
  {
    assert s[..i + 1][..i] == s[..i];
  }

  /** `readOnce`'s decoding loop, over the sample buffer. */
  method Decode(pulses: seq<bv8>) returns (values: seq<bv8>)
    ensures values == Packed(DecodedBits(pulses))
  {
    var buf := new bv8[ValueCount](_ => 0);
    ghost var emitted: seq<bool> := [];
    ghost var whole := pulses[..LastZero(pulses) + 1];
    var run := 0;
    var i, j := LastZero(pulses), 0;
    while i >= 0 && j < BitCount
      invariant -1 <= i <= LastZero(pulses)
      invariant j == |emitted| <= BitCount
      invariant Scan(whole, 0) == emitted + Scan(pulses[..i + 1], run)
      invariant buf[..] == Packed(emitted)
      decreases i
    {
      ScanAdvance(whole, emitted, pulses, i, run);
      if pulses[i] == 1 {
        run := run + 1;
      } else if run > 0 {
        var b := run > 2;
        run := 0;
        AddBit(buf, j, b, emitted);
        emitted := emitted + [b];
        j := j + 1;
      }
      i := i - 1;
    }
    ScanDone(pulses, emitted, i, run);
    values := buf[..];
  }

  /** `values[j/8] += bit << (j%8)` on the buffer itself, for j the number of bits
      already added. */
  method AddBit(buf: array<bv8>, j: nat, b: bool, ghost bits: seq<bool>)
    requires j == |bits| < BitCount && buf[..] == Packed(bits)
    modifies buf
    ensures buf[..] == Packed(bits + [b])
  {
    PackedSnoc(bits, b);
    buf[j / 8] := buf[j / 8] + BitValue(b, j % 8);
  }

  /** The scan invariant after one more sample, for each of the three cases. */
  lemma ScanAdvance(whole: seq<bv8>, emitted: seq<bool>, s: seq<bv8>, i: nat, run: nat)
    requires i < |s| && Scan(whole, 0) == emitted + Scan(s[..i + 1], run)
    ensures s[i] == 1 ==> Scan(whole, 0) == emitted + Scan(s[..i], run + 1)
    ensures s[i] != 1 && run > 0 ==> Scan(whole, 0) == (emitted + [run > 2]) + Scan(s[..i], 0)
    ensures s[i] != 1 && run == 0 ==> Scan(whole, 0) == emitted + Scan(s[..i], 0)
  {
    ScanStep(s, i, run);
    AppendAssoc(emitted, [run > 2], Scan(s[..i], 0));
  }

  /** When the scan loop stops, it has emitted exactly the decoded bits. */
  lemma ScanDone(pulses: seq<bv8>, emitted: seq<bool>, i: int, run: nat)
    requires -1 <= i <= LastZero(pulses) && |emitted| <= BitCount
    requires Scan(pulses[..LastZero(pulses) + 1], 0) == emitted + Scan(pulses[..i + 1], run)
    requires i < 0 || |emitted| == BitCount
    ensures DecodedBits(pulses) == emitted
  {
    if i < 0 {
      assert pulses[..i + 1] == [];
      assert emitted + [] == emitted;
    } else {
      assert (emitted + Scan(pulses[..i + 1], run))[..BitCount] == emitted;
    }
  }

  /** The checksum the driver computes, `values[4]+values[3]+values[2]+values[1]` in
      byte arithmetic, so modulo 256. */
  function Checksum(values: seq<bv8>): (c: byte)
    requires |values| == ValueCount
    ensures c == (values[4] as int + values[3] as int + values[2] as int + values[1] as int) % 256
  {
    ToByte(values[4] as int + values[3] as int + values[2] as int + values[1] as int)
  }

  /** A decoded frame is accepted exactly when its checksum byte `values[0]` matches. */
  function CheckFrame(values: seq<bv8>): (r: Result<seq<bv8>, Error>)
    requires |values| == ValueCount
    ensures r.Ok? <==> Checksum(values) == values[0] as int
    ensures r.Ok? ==> r.value == values
    ensures r.Err? ==> r.error == Error("invalid checksum: expected " + NatToString(values[0] as nat) +
      ", got " + NatToString(Checksum(values)))
  {
    if Checksum(values) == values[0] as int then Ok(values)
    else Err(Error("invalid checksum: expected " + NatToString(values[0] as nat) +
      ", got " + NatToString(Checksum(values))))
  }

  /** One complete read: the start signal, the samples, the decoded and checked frame. */
  function Reading(p: PinSession): (r: Result<seq<bv8>, Error>)
    ensures StartError(p).Some? ==> r == Err(StartError(p).value)
    ensures StartError(p).None? && Samples(p.read, SampleCount).Err? ==> r == Samples(p.read, SampleCount)
    ensures r.Ok? ==>
      && StartError(p).None? && Samples(p.read, SampleCount).Ok?
      && r.value == Packed(DecodedBits(Samples(p.read, SampleCount).value))
      && Checksum(r.value) == r.value[0] as int
  {
    match StartError(p)
    case Some(e) => Err(e)
    case None =>
      match Samples(p.read, SampleCount)
      case Err(e) => Err(e)
      case Ok(pulses) => CheckFrame(Packed(DecodedBits(pulses)))
  }

  /** Runs the start signal, the sampling and the decoding of one read. */
  method Acquire(p: PinSession) returns (r: Result<seq<bv8>, Error>)
    ensures r == Reading(p)
  {
    var start := StartError(p);
    if start.Some? {
      return Err(start.value);
    }
    var pulses := Sample(p);
    if pulses.Err? {
      return Err(pulses.error);
    }
    var values := Decode(pulses.value);
    r := CheckFrame(values);
  }

  /** The DHT11 driver of drivers/dht11.go, holding the last good reading. */
  class Sensor {
    var temperature: bv8
    var humidity: bv8

    constructor ()
      ensures temperature == 0 && humidity == 0
    {
      temperature, humidity := 0, 0;
    }

    /** `readOnce`: a good frame sets temperature from `values[2]` and humidity from
        `values[4]`; any error leaves both unchanged. */
    method ReadOnce(p: PinSession) returns (err: Option<Error>)
      modifies this
      ensures Reading(p).Ok? ==>
        err.None? && temperature == Reading(p).value[2] && humidity == Reading(p).value[4]
      ensures Reading(p).Err? ==>
        err == Some(Reading(p).error) && temperature == old(temperature) && humidity == old(humidity)
    {
      var r := Acquire(p);
      match r
      case Err(e) =>
        err := Some(e);
      case Ok(values) =>
        temperature, humidity := values[2], values[4];
        err := None;
    }

    /** `Read(maxRetries)`: up to maxRetries + 1 attempts (session k for attempt k),
        stopping at the first success. */
    method Read(maxRetries: int, sessions: nat -> PinSession) returns (retries: nat, err: Option<Error>)
      modifies this
      ensures (retries, err, temperature, humidity) == Retried(maxRetries, sessions, old(temperature), old(humidity))
    {
      var n := Attempts(maxRetries);
      retries, err := 0, None;
      while retries < n
        invariant retries <= n
        invariant FirstGood(sessions, retries) == retries
        invariant retries > 0 ==> err == Some(Reading(sessions(retries - 1)).error)
        invariant retries == 0 ==> err.None?
        invariant temperature == old(temperature) && humidity == old(humidity)
      {
        err := ReadOnce(sessions(retries));
        if err.None? {
          FirstGoodIs(sessions, n, retries);
          return;
        }
        retries := retries + 1;
      }
    }
  }

  /** What `Read(maxRetries)` ends with, from temperature `t` and humidity `h`: the
      retries made, the error, and the two fields. */
  function Retried(maxRetries: int, sessions: nat -> PinSession, t: bv8, h: bv8): (nat, Option<Error>, bv8, bv8)
  {
    var n := Attempts(maxRetries);
    var k := FirstGood(sessions, n);
    if k < n then (k, None, Reading(sessions(k)).value[2], Reading(sessions(k)).value[4])
    else if n > 0 then (n, Some(Reading(sessions(n - 1)).error), t, h)
    else (0, None, t, h)
  }

  /** `Read` stops at the first good session and takes its frame; the sessions before
      it all failed; when all fail it reports the last error and keeps the fields. */
  lemma RetriedOutcome(maxRetries: int, sessions: nat -> PinSession, t: bv8, h: bv8)
    ensures var (retries, err, t', h') := Retried(maxRetries, sessions, t, h);
      var n := Attempts(maxRetries);
      && retries <= n
      && (forall i :: 0 <= i < retries ==> Reading(sessions(i)).Err?)
      && (err.None? && retries < n ==>
            Reading(sessions(retries)).Ok? && t' == Reading(sessions(retries)).value[2] && h' == Reading(sessions(retries)).value[4])
      && (err.Some? <==> n > 0 && retries == n)
      && (err.Some? ==> err == Some(Reading(sessions(n - 1)).error) && t' == t && h' == h)
  {
  }

  /** The number of attempts `Read(maxRetries)` makes when every attempt fails. */
  function Attempts(maxRetries: int): (n: nat)
    ensures maxRetries >= 0 ==> n == maxRetries + 1
    ensures maxRetries < 0 ==> n == 0
  {
    if maxRetries < 0 then 0 else maxRetries + 1
  }

  /** The index of the first of `n` sessions that reads a good frame, or `n`. */
  function FirstGood(sessions: nat -> PinSession, n: nat): (k: nat)
    ensures k <= n
    ensures k < n ==> Reading(sessions(k)).Ok?
    ensures forall i :: 0 <= i < k ==> Reading(sessions(i)).Err?
  {
    if n == 0 then 0
    else if FirstGood(sessions, n - 1) < n - 1 then FirstGood(sessions, n - 1)
    else if Reading(sessions(n - 1)).Ok? then n - 1
    else n
  }

  /** Past the first good session, the index stays the same. */
  lemma {:induction false} FirstGoodIs(sessions: nat -> PinSession, n: nat, k: nat)
    requires k < n && Reading(sessions(k)).Ok? && FirstGood(sessions, k) == k
    ensures FirstGood(sessions, n) == k
  {
    if n - 1 > k {
      FirstGoodIs(sessions, n - 1, k);
    }
  }

  lemma {:induction false} FirstGoodNone(sessions: nat -> PinSession, n: nat)
    requires forall i :: 0 <= i < n ==> Reading(sessions(i)).Err?
    ensures FirstGood(sessions, n) == n
  {
    if n > 0 {
      FirstGoodNone(sessions, n - 1);
    }
  }

  /** `ReadDHT11` of gpio.go: the same read, answering (values[4], values[2]) and
      (0, 0, error) on every failure. */
  method ReadDht11(p: PinSession) returns (humidity: bv8, temperature: bv8, err: Option<Error>)
    ensures Reading(p).Ok? ==> err.None? && humidity == Reading(p).value[4] && temperature == Reading(p).value[2]
    ensures Reading(p).Err? ==> err == Some(Reading(p).error) && humidity == 0 && temperature == 0
  {
    var r := Acquire(p);
    match r
    case Err(e) =>
      return 0, 0, Some(e);
    case Ok(values) =>
      return values[4], values[2], None;
  }

  // ---------------------------------------------------------------------------
  // Properties of the decoder

  /** The samples for one bit: a run of three high samples for 1, of one for 0. */
  function Run(b: bool): seq<bv8>
  {
    if b then [1, 1, 1] else [1]
  }

  /** A pulse train that carries `bits`, oldest sample first: the first bit sits
      nearest the end, because the scan runs backward; every run is followed by a
      low sample. */
  function Train(bits: seq<bool>): (s: seq<bv8>)
    ensures |s| > 0 && s[|s| - 1] == 0
  {
    if bits == [] then [0] else Train(bits[1..]) + Run(bits[0]) + [0]
  }

  /** High samples at the end of the scanned part only lengthen the pending run. */
  lemma {:induction false} ScanOnes(s: seq<bv8>, ones: seq<bv8>, run: nat)
    requires forall i :: 0 <= i < |ones| ==> ones[i] == 1
    ensures Scan(s + ones, run) == Scan(s, run + |ones|)
  {
    if ones != [] {
      var last := |ones| - 1;
      assert (s + ones)[..|s + ones| - 1] == s + ones[..last];
      ScanOnes(s, ones[..last], run + 1);
    } else {
      assert s + ones == s;
    }
  }

  /** The scan of a train gives back its bits. */
  lemma {:induction false} ScanTrain(bits: seq<bool>)
    ensures Scan(Train(bits), 0) == bits
  {
    if bits != [] {
      var t := Train(bits[1..]);
      var s := t + Run(bits[0]) + [0];
      assert s[..|s| - 1] == t + Run(bits[0]);
      ScanOnes(t, Run(bits[0]), 0);
      assert t[..|t| - 1][..|t| - 1] == t[..|t| - 1];
      assert Scan(t[..|t| - 1], 0) == Scan(t, 0);
      ScanTrain(bits[1..]);
      assert bits == [bits[0]] + bits[1..];
    }
  }

  /** Decoding inverts the train: any run of three or more high samples decodes as 1,
      a shorter run as 0, bits are read from the last low sample backward, and
      samples after that last low one are ignored. At most 40 bits are kept. */
  lemma TrainDecodes(bits: seq<bool>, pad: seq<bv8>)
    requires forall i :: 0 <= i < |pad| ==> pad[i] != 0
    ensures var d := DecodedBits(Train(bits) + pad);
      d == if |bits| <= BitCount then bits else bits[..BitCount]
  {
    var t := Train(bits);
    var s := t + pad;
    LastZeroPadded(t, pad);
    assert s[..|t|] == t;
    ScanTrain(bits);
  }

  /** Samples after the last low one do not move it. */
  lemma LastZeroPadded(t: seq<bv8>, pad: seq<bv8>)
    requires |t| > 0 && t[|t| - 1] == 0
    requires forall i :: 0 <= i < |pad| ==> pad[i] != 0
    ensures LastZero(t + pad) == |t| - 1
  {
    var s := t + pad;
    assert s[|t| - 1] == 0;
    assert forall i :: |t| - 1 < i < |s| ==> s[i] == pad[i - |t|];
  }

  /** Without any low sample nothing is decoded, so the frame is five zero bytes and
      passes the checksum (drivers/dht11.go:52). */
  lemma NoZeroNoBits(pulses: seq<bv8>)
    requires forall i :: 0 <= i < |pulses| ==> pulses[i] != 0
    ensures DecodedBits(pulses) == []
    ensures Packed(DecodedBits(pulses)) == [0, 0, 0, 0, 0]
    ensures Checksum(Packed(DecodedBits(pulses))) == 0
  {
    assert pulses[..0] == [];
  }

  /** The temperature reported is bits 16-23 and the humidity bits 32-39 of the decoded
      stream, LSB first; the checksum byte is bits 0-7 (drivers/dht11.go:62, 68-72). */
  lemma FrameFields(bits: seq<bool>)
    requires |bits| == BitCount
    ensures Packed(bits)[0] == ByteOf(bits, 0)
    ensures Packed(bits)[2] == ByteOf(bits, 2)
    ensures Packed(bits)[4] == ByteOf(bits, 4)
  {
    PackedBytes(bits);
  }
}
