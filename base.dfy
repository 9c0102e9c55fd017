/** Shared value types: optional values, results with an error payload, and the
    fixed-width integer ranges the Go and C sources use. */
module Base {

  datatype Option<T> = None | Some(value: T)

  /** A Go `(value, error)` pair where exactly one side is meaningful. */
  datatype Result<T, E> = Ok(value: T) | Err(error: E)

  /** An error as a Go program reports it: its message. */
  datatype Error = Error(message: string)

  /** The outcome of a Go call that may `panic` (a nil dereference, an index out of
      range, `log.Panic`) instead of returning. */
  datatype Fallible<T> = Returned(value: T) | Panicked(reason: string)

  /** One transfer on an I2C bus, addressed to the slave `addr`. */
  datatype BusOp =
    | ReadByte(addr: byte, reg: byte)
    | ReadWord(addr: byte, reg: byte)
    | ReadSlice(addr: byte, reg: byte, len: nat)
    | WriteByte(addr: byte, reg: byte, value: byte)
    | WriteWord(addr: byte, reg: byte, word: uint16)

  type byte = x: int | 0 <= x < 256
  type uint16 = x: int | 0 <= x < 0x1_0000
  type uint32 = x: int | 0 <= x < 0x1_0000_0000
  type int8 = x: int | -0x80 <= x < 0x80
  type int32 = x: int | -0x8000_0000 <= x < 0x8000_0000

  /** The byte with only bit `pos` set. */
  function Mask(pos: nat): bv8
    requires pos < 8
  {
    if pos == 0 then 1 else if pos == 1 then 2 else if pos == 2 then 4 else if pos == 3 then 8
    else if pos == 4 then 16 else if pos == 5 then 32 else if pos == 6 then 64 else 128
  }

  /** The mask is the shift Go writes, `1 << pos`. */
  lemma MaskIsShift(pos: nat)
    requires pos < 8
    ensures Mask(pos) == (1 as bv8) << pos
  {
  }

  /** Bit `pos` of `v`. */
  predicate BitAt(v: bv8, pos: nat)
    requires pos < 8
  {
    v & Mask(pos) != 0
  }

  /** Go's conversion `byte(x)` of an integer: keep the low 8 bits. */
  function ToByte(x: int): (b: byte)
    ensures x - b == 0x100 * ((x - b) / 0x100)
    ensures 0 <= x < 0x100 ==> b == x
  {
    x % 0x100
  }

  /** Go's conversion `int8(x)` of an integer: two's complement of the low 8 bits. */
  function ToInt8(x: int): (r: int8)
    ensures x - r == 0x100 * ((x - r) / 0x100)
    ensures -0x80 <= x < 0x80 ==> r == x
  {
    (x + 0x80) % 0x100 - 0x80
  }

  /** C's conversion of an integer to `unsigned` (32 bits): keep the low 32 bits. */
  function ToUint32(x: int): (r: uint32)
    ensures x - r == 0x1_0000_0000 * ((x - r) / 0x1_0000_0000)
    ensures 0 <= x < 0x1_0000_0000 ==> r == x
  {
    x % 0x1_0000_0000
  }

  /** Concatenation regroups; stated once so that callers need not reprove it by
      extensionality. */
  lemma AppendAssoc<T>(a: seq<T>, b: seq<T>, c: seq<T>)
    ensures (a + b) + c == a + (b + c)
  {
  }

  /** Go's integer division, which truncates toward zero (Dafny's `/` is Euclidean). */
  function TruncDiv(a: int, b: int): (q: int)
    requires b > 0
    ensures a >= 0 ==> q == a / b
    ensures a < 0 ==> q == -((-a) / b)
  {
    if a >= 0 then a / b else -((-a) / b)
  }

  /** The character of a decimal digit. */
  function DigitChar(d: nat): (c: char)
    requires d < 10
    ensures '0' <= c <= '9' && c as int - '0' as int == d
  {
    ('0' as int + d) as char
  }

  /** The decimal representation Go's `%d` and `strconv.Itoa` print for a natural number. */
  function NatToString(n: nat): (s: string)
    ensures |s| > 0 && forall i :: 0 <= i < |s| ==> '0' <= s[i] <= '9'
    ensures n > 0 ==> s[0] != '0'
  {
    if n < 10 then [DigitChar(n)] else NatToString(n / 10) + [DigitChar(n % 10)]
  }

  /** Different numbers print differently. */
  lemma {:induction false} NatToStringInjective(a: nat, b: nat)
    ensures NatToString(a) == NatToString(b) ==> a == b
  {
    if a >= 10 && b >= 10 {
      var s := NatToString(a);
      NatToStringInjective(a / 10, b / 10);
      if s == NatToString(b) {
        assert NatToString(a / 10) == s[..|s| - 1] == NatToString(b / 10);
        assert DigitChar(a % 10) == s[|s| - 1] == DigitChar(b % 10);
      }
    } else if a >= 10 || b >= 10 {
      assert |NatToString(a)| != |NatToString(b)|;
    }
  }

  /** The decimal representation of an integer, with a leading '-' when negative. */
  function IntToString(x: int): (s: string)
    ensures x < 0 <==> |s| > 0 && s[0] == '-'
  {
    if x < 0 then "-" + NatToString(-x) else NatToString(x)
  }

  /** `strings.Join(parts, sep)`. */
  function Join(parts: seq<string>, sep: string): string
  {
    if |parts| == 0 then ""
    else if |parts| == 1 then parts[0]
    else parts[0] + sep + Join(parts[1..], sep)
  }

  /** A join starts with its first part. */
  lemma JoinHead(parts: seq<string>, sep: string)
    requires |parts| > 0
    ensures |Join(parts, sep)| >= |parts[0]| && Join(parts, sep)[..|parts[0]|] == parts[0]
  {
  }

  /** gRPC request metadata: each key carries a list of values. */
  type Metadata = map<string, seq<string>>
}
