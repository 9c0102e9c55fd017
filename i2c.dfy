/** The Linux I2C bus of rpi/i2c/i2c.go. A `Bus` remembers the slave address it
    last selected with the `I2C_SLAVE` ioctl, and issues the ioctl again only for
    a different slave; every transfer first selects its slave, then makes one
    SMBus call. The kernel is an oracle answering the k-th system call of the bus. */
module I2c {
  import opened Base

  /** One system call on the bus file. */
  datatype Syscall = Ioctl(addr: byte) | Smbus(op: BusOp)

  /** What an SMBus call returns: the C result (a byte, a word, or -1) and errno. */
  datatype Reply = Reply(value: int, errno: Option<Error>)

  /** The kernel's answers, by the number of the call on this bus. */
  datatype Kernel = Kernel(ioctl: nat -> Option<Error>, smbus: nat -> Reply)

  /** The slave the kernel has selected after the calls `t`: the address of the last
      ioctl that succeeded, or 0, the address of a freshly opened file. */
  function CachedAddress(k: Kernel, t: seq<Syscall>): (a: byte)
    ensures a != 0 ==> exists i :: 0 <= i < |t| && t[i] == Ioctl(a) && k.ioctl(i).None?
  {
    if |t| == 0 then 0
    else if t[|t| - 1].Ioctl? && k.ioctl(|t| - 1).None? then t[|t| - 1].addr
    else
      var a := CachedAddress(k, t[..|t| - 1]);
      assert a != 0 ==> exists i :: 0 <= i < |t| - 1 && t[..|t| - 1][i] == Ioctl(a) && k.ioctl(i).None?;
      a
  }

  /** The i-th call was disciplined: an ioctl only changes the slave, and an SMBus
      transfer goes to the slave selected before it. */
  predicate Disciplined(k: Kernel, before: seq<Syscall>, s: Syscall)
  {
    match s
    case Ioctl(a) => a != CachedAddress(k, before)
    case Smbus(op) => op.addr == CachedAddress(k, before)
  }

  /** Every call of `t` was disciplined. */
  predicate Orderly(k: Kernel, t: seq<Syscall>)
  {
    forall i :: 0 <= i < |t| ==> Disciplined(k, t[..i], t[i])
  }

  /** A call changes the cache only when it is an ioctl that succeeds, and then to
      its address (rpi/i2c/i2c.go:36-40). */
  lemma CachedAfter(k: Kernel, t: seq<Syscall>, s: Syscall)
    ensures CachedAddress(k, t + [s]) == if s.Ioctl? && k.ioctl(|t|).None? then s.addr else CachedAddress(k, t)
  {
    assert (t + [s])[..|t|] == t;
  }

  /** Appending a disciplined call keeps the whole sequence orderly. */
  lemma {:induction false} OrderlyAppend(k: Kernel, t: seq<Syscall>, s: Syscall)
    requires Orderly(k, t) && Disciplined(k, t, s)
    ensures Orderly(k, t + [s])
  {
    forall i | 0 <= i < |t| + 1
      ensures Disciplined(k, (t + [s])[..i], (t + [s])[i])
    {
      if i < |t| {
        assert (t + [s])[..i] == t[..i];
      } else {
        assert (t + [s])[..i] == t;
      }
    }
  }

  /** The state of a bus after a call, and what the call returned. */
  datatype Step = Step(remote: byte, trace: seq<Syscall>, value: int, err: Option<Error>)

  /** `setRemoteAddress` from the cache `remote` after the calls `t`. */
  function SelectStep(k: Kernel, remote: byte, t: seq<Syscall>, addr: byte): Step
  {
    if addr == remote then Step(remote, t, 0, None)
    else
      var e := k.ioctl(|t|);
      Step(if e.None? then addr else remote, t + [Ioctl(addr)], 0, e)
  }

  /** A transfer `op`: select its slave; on failure return 0 and the error, else make
      the SMBus call and return its reply. */
  function TransferStep(k: Kernel, remote: byte, t: seq<Syscall>, op: BusOp): Step
  {
    var s := SelectStep(k, remote, t, op.addr);
    if s.err.Some? then s
    else
      var reply := k.smbus(|s.trace|);
      Step(s.remote, s.trace + [Smbus(op)], reply.value, reply.errno)
  }

  /** The ioctl is issued only for a slave other than the cached one; the cache moves
      to the new slave only when the ioctl succeeds, and an errno is returned with the
      cache unchanged (rpi/i2c/i2c.go:34-43). */
  lemma SelectCache(k: Kernel, remote: byte, t: seq<Syscall>, addr: byte)
    ensures var s := SelectStep(k, remote, t, addr);
      && (addr == remote <==> s.trace == t)
      && (addr != remote ==> s.trace == t + [Ioctl(addr)] && s.err == k.ioctl(|t|))
      && (s.err.None? <==> s.remote == addr)
      && (s.err.Some? ==> s.remote == remote)
  {
  }

  /** Every transfer selects its slave first. When that fails no SMBus call is made
      and the zero value is returned with the error; otherwise exactly one SMBus call
      follows, and its reply is returned (rpi/i2c/i2c.go:49-52, 60-64, 71-76, 83-88). */
  lemma TransferShape(k: Kernel, remote: byte, t: seq<Syscall>, op: BusOp)
    ensures var r := TransferStep(k, remote, t, op);
      var select := if op.addr == remote then [] else [Ioctl(op.addr)];
      var selected := op.addr == remote || k.ioctl(|t|).None?;
      && (!selected ==> r.trace == t + select && r.value == 0 && r.err == k.ioctl(|t|) && r.err.Some?)
      && (selected ==> r.trace == t + select + [Smbus(op)] && r.remote == op.addr
                       && Reply(r.value, r.err) == k.smbus(|t| + |select|))
  {
  }

  /** A new bus selects no slave for address 0: its first transfer to 0 is the SMBus
      call alone (rpi/i2c/i2c.go:31, 35). */
  lemma FreshBusAddressZero(k: Kernel, op: BusOp)
    requires op.addr == 0
    ensures TransferStep(k, 0, [], op).trace == [Smbus(op)]
  {
  }

  /** Selecting a slave from a cache that agrees with the kernel keeps the two in
      agreement. */
  lemma SelectOrderly(k: Kernel, remote: byte, t: seq<Syscall>, addr: byte)
    requires remote == CachedAddress(k, t) && Orderly(k, t)
    ensures var s := SelectStep(k, remote, t, addr);
      s.remote == CachedAddress(k, s.trace) && Orderly(k, s.trace)
  {
    if addr != remote {
      CachedAfter(k, t, Ioctl(addr));
      assert Disciplined(k, t, Ioctl(addr));
      OrderlyAppend(k, t, Ioctl(addr));
    }
  }

  /** A transfer made from a cache that agrees with the kernel keeps the two in
      agreement, and its SMBus call goes to the slave the kernel has selected. */
  lemma TransferOrderly(k: Kernel, remote: byte, t: seq<Syscall>, op: BusOp)
    requires remote == CachedAddress(k, t) && Orderly(k, t)
    ensures var r := TransferStep(k, remote, t, op);
      r.remote == CachedAddress(k, r.trace) && Orderly(k, r.trace)
  {
    var s := SelectStep(k, remote, t, op.addr);
    SelectOrderly(k, remote, t, op.addr);
    if s.err.None? {
      SelectCache(k, remote, t, op.addr);
      assert Disciplined(k, s.trace, Smbus(op));
      CachedAfter(k, s.trace, Smbus(op));
      OrderlyAppend(k, s.trace, Smbus(op));
    }
  }

  class Bus {
    const kernel: Kernel
    /** The slave the ioctl last selected, as the Go field. */
    var remoteAddress: byte
    /** The system calls made so far, oldest first. */
    var trace: seq<Syscall>

    /** The cache agrees with the kernel, and every call so far was disciplined. */
    ghost predicate Valid()
      reads this
    {
      remoteAddress == CachedAddress(kernel, trace) && Orderly(kernel, trace)
    }

    /** `NewBus` once the file is open: the cache holds 0 and nothing was called. */
    constructor (k: Kernel)
      ensures Valid() && kernel == k && remoteAddress == 0 && trace == []
    {
      kernel := k;
      remoteAddress := 0;
      trace := [];
    }

    /** `setRemoteAddress` (rpi/i2c/i2c.go:34-43). */
    method SetRemoteAddress(addr: byte) returns (err: Option<Error>)
      requires Valid()
      modifies this
      ensures Step(remoteAddress, trace, 0, err) == SelectStep(kernel, old(remoteAddress), old(trace), addr)
    {
      err := None;
      if addr != remoteAddress {
        err := kernel.ioctl(|trace|);
        trace := trace + [Ioctl(addr)];
        if err.None? {
          remoteAddress := addr;
        }
      }
    }

    /** The shared steps of the four transfers. */
    method Transfer(op: BusOp) returns (value: int, err: Option<Error>)
      requires Valid()
      modifies this
      ensures Valid()
      ensures Step(remoteAddress, trace, value, err) == TransferStep(kernel, old(remoteAddress), old(trace), op)
    {
      TransferOrderly(kernel, remoteAddress, trace, op);
      var e := SetRemoteAddress(op.addr);
      if e.Some? {
        return 0, e;
      }
      var reply := kernel.smbus(|trace|);
      trace := trace + [Smbus(op)];
      value, err := reply.value, reply.errno;
    }

    /** `ReadByteFromReg`: Go's `byte(value)` of the C result, also when errno is set
        (rpi/i2c/i2c.go:46-54). */
    method ReadByteFromReg(addr: byte, reg: byte) returns (value: byte, err: Option<Error>)
      requires Valid()
      modifies this
      ensures Valid()
      ensures var r := TransferStep(kernel, old(remoteAddress), old(trace), ReadByte(addr, reg));
        remoteAddress == r.remote && trace == r.trace && value == ToByte(r.value) && err == r.err
    {
      var v;
      v, err := Transfer(ReadByte(addr, reg));
      value := ToByte(v);
    }

    /** `ReadWordFromReg`: `uint16(value)` (rpi/i2c/i2c.go:57-65). */
    method ReadWordFromReg(addr: byte, reg: byte) returns (value: uint16, err: Option<Error>)
      requires Valid()
      modifies this
      ensures Valid()
      ensures var r := TransferStep(kernel, old(remoteAddress), old(trace), ReadWord(addr, reg));
        remoteAddress == r.remote && trace == r.trace && value == r.value % 0x1_0000 && err == r.err
    {
      var v;
      v, err := Transfer(ReadWord(addr, reg));
      value := v % 0x1_0000;
    }

    /** `WriteByteToReg` (rpi/i2c/i2c.go:68-77). */
    method WriteByteToReg(addr: byte, reg: byte, value: byte) returns (err: Option<Error>)
      requires Valid()
      modifies this
      ensures Valid()
      ensures var r := TransferStep(kernel, old(remoteAddress), old(trace), WriteByte(addr, reg, value));
        remoteAddress == r.remote && trace == r.trace && err == r.err
    {
      var status;
      status, err := Transfer(WriteByte(addr, reg, value));
    }

    /** `WriteWordToReg` (rpi/i2c/i2c.go:80-89). */
    method WriteWordToReg(addr: byte, reg: byte, value: uint16) returns (err: Option<Error>)
      requires Valid()
      modifies this
      ensures Valid()
      ensures var r := TransferStep(kernel, old(remoteAddress), old(trace), WriteWord(addr, reg, value));
        remoteAddress == r.remote && trace == r.trace && err == r.err
    {
      var status;
      status, err := Transfer(WriteWord(addr, reg, value));
    }
  }
  /** The device file of bus `id`: `fmt.Sprintf("/dev/i2c-%d", id)`. */
  function BusPath(id: byte): (p: string)
    ensures |p| > |"/dev/i2c-"| && p[..|"/dev/i2c-"|] == "/dev/i2c-"
  {
    "/dev/i2c-" + NatToString(id)
  }

  /** Distinct bus ids open distinct device files. */
  lemma BusPathsDistinct(a: byte, b: byte)
    ensures BusPath(a) == BusPath(b) <==> a == b
  {
    if BusPath(a) == BusPath(b) {
      assert NatToString(a) == BusPath(a)[|"/dev/i2c-"|..] == BusPath(b)[|"/dev/i2c-"|..] == NatToString(b);
      NatToStringInjective(a, b);
    }
  }

  /** `NewBus`: opens the device file of `id` (the outcome of `open` for that path);
      a failure returns no bus and the error (rpi/i2c/i2c.go:23-32). */
  method NewBus(id: byte, k: Kernel, open: string -> Option<Error>) returns (b: Bus?, err: Option<Error>)
    ensures err == open(BusPath(id))
    ensures b == null <==> err.Some?
    ensures b != null ==> fresh(b) && b.Valid() && b.kernel == k && b.remoteAddress == 0 && b.trace == []
  {
    err := open(BusPath(id));
    if err.Some? {
      return null, err;
    }
    b := new Bus(k);
  }
}
