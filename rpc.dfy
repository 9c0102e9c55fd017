/** The gRPC service of rpc/server.go: credentials from the request metadata, the
    access check of the authentication manager, then the hardware. The motor
    controller's bus answers each call by its position in `ops` (`reply` for writes,
    `read` for 4-byte reads); the board's readings, whose driver functions are not
    part of this model, are handler inputs, and `queries` records which were asked. */
module Rpc {
  import opened Base
  import Motors
  import Auth

  const AuthUserKey: string := "auth-user"
  const AuthTokenKey: string := "auth-token"
  const NoMetadata: string := "No metadata found in the request"
  const MotorsBlocked: string := "Motors controller is software blocked"
  const BoardBlocked: string := "Board controller is software blocked"

  function KeyNotFound(name: string): Error
  {
    Error("Metadata key not found: " + name)
  }

  /** `getFirstValue`: the value of a key that has exactly one; anything else (no
      value, or several) is an error naming the key (rpc/server.go:45-51). */
  function GetFirstValue(md: Metadata, name: string): (r: Result<string, Error>)
    ensures r.Ok? <==> name in md && |md[name]| == 1
    ensures r.Ok? ==> r.value == md[name][0]
    ensures r.Err? ==> r.error == KeyNotFound(name)
  {
    var values := if name in md then md[name] else [];
    if |values| != 1 then Err(KeyNotFound(name)) else Ok(values[0])
  }

  /** What `getUserAndToken` returns: the user, the token and the error. */
  datatype Credentials = Credentials(user: string, token: string, err: Option<Error>)

  /** `getUserAndToken`: no metadata is an error; the token is only looked up once
      the user was found, so a missing user is the error reported even when the
      token is missing too (rpc/server.go:53-64). */
  function GetUserAndToken(md: Option<Metadata>): (c: Credentials)
    ensures md.None? ==> c.err == Some(Error(NoMetadata))
    ensures md.Some? ==> (c.err.None? <==> GetFirstValue(md.value, AuthUserKey).Ok? && GetFirstValue(md.value, AuthTokenKey).Ok?)
    ensures md.Some? && GetFirstValue(md.value, AuthUserKey).Err? ==> c.err == Some(KeyNotFound(AuthUserKey))
    ensures md.Some? && GetFirstValue(md.value, AuthUserKey).Ok? && GetFirstValue(md.value, AuthTokenKey).Err? ==>
      c.err == Some(KeyNotFound(AuthTokenKey)) && c.user == md.value[AuthUserKey][0]
    ensures c.err.None? ==> md.Some? && c.user == md.value[AuthUserKey][0] && c.token == md.value[AuthTokenKey][0]
  {
    if md.None? then Credentials("", "", Some(Error(NoMetadata)))
    else
      var user := GetFirstValue(md.value, AuthUserKey);
      if user.Err? then Credentials("", "", Some(user.error))
      else
        var token := GetFirstValue(md.value, AuthTokenKey);
        if token.Err? then Credentials(user.value, "", Some(token.error))
        else Credentials(user.value, token.value, None)
  }

  /** A request carrying one user and one token gives them back; a second user value
      makes it fail on the user. */
  lemma CredentialsRoundTrip(md: Metadata, user: string, token: string, other: string)
    ensures GetUserAndToken(Some(md[AuthUserKey := [user]][AuthTokenKey := [token]])) == Credentials(user, token, None)
    ensures GetUserAndToken(Some(md[AuthUserKey := [user, other]])).err == Some(KeyNotFound(AuthUserKey))
  {
    assert AuthUserKey != AuthTokenKey;
  }

  /** `checkAccess` as a function of the metadata and the manager's fields: the
      credentials error, or the manager's verdict on them. */
  function Checked(md: Option<Metadata>, cache: Option<map<string, string>>, gcs: bool,
                   fetch: string -> Result<string, Error>): (a: Auth.Access)
    requires gcs ==> cache.Some?
    ensures a.result.Returned?
    ensures GetUserAndToken(md).err.Some? ==> a == Auth.Access(Returned(GetUserAndToken(md).err), cache, false)
    ensures GetUserAndToken(md).err.None? ==>
      a == Auth.CheckAccessStep(cache, gcs, fetch, GetUserAndToken(md).user, GetUserAndToken(md).token)
  {
    var c := GetUserAndToken(md);
    if c.err.Some? then Auth.Access(Returned(c.err), cache, false)
    else
      Auth.CheckAccessOutcomes(cache, gcs, fetch, c.user, c.token);
      Auth.CheckAccessStep(cache, gcs, fetch, c.user, c.token)
  }

  /** A handler's error: returned as is, or translated by `getGRPCError`. */
  datatype RpcError = Raw(error: Error) | Unavailable(message: string)

  /** The writes of `MoveRover`: both motors at the requested speeds (truncated to
      `int8`), then both stopped. */
  function MoveOps(addr: byte, left: int, right: int): seq<BusOp>
  {
    [Motors.Left(addr, ToInt8(left)), Motors.Right(addr, ToInt8(right)), Motors.Left(addr, 0), Motors.Right(addr, 0)]
  }

  /** Issuing writes in order, call `start` first, until one fails: how many were
      issued and the failure, if any. */
  function Writes(ops: seq<BusOp>, start: nat, reply: nat -> Option<Error>): (r: (nat, Option<Error>))
    ensures r.0 <= |ops|
    ensures r.1.None? ==> r.0 == |ops| && forall k :: start <= k < start + |ops| ==> reply(k).None?
    ensures r.1.Some? ==> && 0 < r.0 && r.1 == reply(start + r.0 - 1)
                          && forall k :: start <= k < start + r.0 - 1 ==> reply(k).None?
    decreases |ops|
  {
    if |ops| == 0 then (0, None)
    else if reply(start).Some? then (1, reply(start))
    else var w := Writes(ops[1..], start + 1, reply); (w.0 + 1, w.1)
  }

  /** How many of the four reads from call `start` on succeed before the first
      failure. */
  function ReadsBeforeFailure(start: nat, read: nat -> Result<Motors.Quad, Error>): (c: nat)
    ensures c <= 4
    ensures forall k :: start <= k < start + c ==> read(k).Ok?
    ensures c < 4 ==> read(start + c).Err?
  {
    if read(start).Err? then 0
    else if read(start + 1).Err? then 1
    else if read(start + 2).Err? then 2
    else if read(start + 3).Err? then 3
    else 4
  }

  /** The reads of `ReadEncoders`, in order. */
  function EncoderReads(addr: byte): seq<BusOp>
  {
    [ReadSlice(addr, Motors.RegisterEncoderLeftFront, 4), ReadSlice(addr, Motors.RegisterEncoderLeftBack, 4),
     ReadSlice(addr, Motors.RegisterEncoderRightFront, 4), ReadSlice(addr, Motors.RegisterEncoderRightBack, 4)]
  }

  /** The server: the manager, whether the motor controller and the board exist,
      the controller's address and bus, and the calls made so far. */
  class Server {
    const am: Auth.Manager
    const motors: bool
    const board: bool
    const address: byte
    const reply: nat -> Option<Error>
    const read: nat -> Result<Motors.Quad, Error>
    var ops: seq<BusOp>
    var queries: seq<string>

    constructor(am: Auth.Manager, motors: bool, board: bool, address: byte,
                reply: nat -> Option<Error>, read: nat -> Result<Motors.Quad, Error>)
      ensures this.am == am && this.motors == motors && this.board == board && this.address == address
      ensures this.reply == reply && this.read == read && ops == [] && queries == []
    {
      this.am := am;
      this.motors := motors;
      this.board := board;
      this.address := address;
      this.reply := reply;
      this.read := read;
      ops := [];
      queries := [];
    }

    /** `checkAccess`: the credentials, then the manager (rpc/server.go:66-73). */
    method CheckAccess(md: Option<Metadata>) returns (err: Option<Error>)
      requires am.Valid()
      modifies am
      ensures am.Valid()
      ensures var a := Checked(md, old(am.cache), am.gcs, am.fetch);
        && Returned(err) == a.result && am.cache == a.cache
        && am.fetches == old(am.fetches) + (if a.fetched then [GetUserAndToken(md).user] else [])
    {
      var c := GetUserAndToken(md);
      if c.err.Some? {
        return c.err;
      }
      err := am.CheckAccess(c.user, c.token);
    }

    /** One write on the controller's bus. */
    method Write(op: BusOp) returns (e: Option<Error>)
      modifies this
      ensures ops == old(ops) + [op] && e == reply(|old(ops)|) && queries == old(queries)
    {
      e := reply(|ops|);
      ops := ops + [op];
    }

    /** `ReadEncoder` on the controller's bus. */
    method ReadEncoder(encoder: byte) returns (value: int32, e: Option<Error>)
      modifies this
      ensures ops == old(ops) + [ReadSlice(address, encoder, 4)] && queries == old(queries)
      ensures var q := read(|old(ops)|);
        if q.Ok? then value == Motors.DecodeInt32(q.value) && e.None? else e == Some(q.error)
    {
      var r := Motors.ReadEncoder(address, encoder, read(|ops|));
      ops := ops + [r.0];
      if r.1.Ok? {
        value, e := r.1.value, None;
      } else {
        value, e := 0, Some(r.1.error);
      }
    }

    /** `MoveRover`: access first, then the controller's presence, then the four
        writes of `MoveOps`, stopping at the first failure, whose error is
        returned as is (rpc/server.go:76-101). */
    method MoveRover(md: Option<Metadata>, left: int, right: int) returns (err: Option<RpcError>)
      requires am.Valid()
      modifies this, am
      ensures am.Valid() && queries == old(queries)
      ensures var a := Checked(md, old(am.cache), am.gcs, am.fetch);
        && am.cache == a.cache
        && am.fetches == old(am.fetches) + (if a.fetched then [GetUserAndToken(md).user] else [])
        && (a.result.value.Some? ==> err == Some(Raw(a.result.value.value)) && ops == old(ops))
        && (a.result.value.None? && !motors ==> err == Some(Raw(Error(MotorsBlocked))) && ops == old(ops))
        && (a.result.value.None? && motors ==>
              var w := Writes(MoveOps(address, left, right), |old(ops)|, reply);
              && ops == old(ops) + MoveOps(address, left, right)[..w.0]
              && err == (if w.1.Some? then Some(Raw(w.1.value)) else None))
    {
      var e := CheckAccess(md);
      if e.Some? {
        return Some(Raw(e.value));
      }
      if !motors {
        return Some(Raw(Error(MotorsBlocked)));
      }
      err := MoveMotors(left, right);
    }

    /** The four writes of `MoveRover`, up to the first failure. */
    method MoveMotors(left: int, right: int) returns (err: Option<RpcError>)
      modifies this
      ensures queries == old(queries)
      ensures var w := Writes(MoveOps(address, left, right), |old(ops)|, reply);
        && ops == old(ops) + MoveOps(address, left, right)[..w.0]
        && err == (if w.1.Some? then Some(Raw(w.1.value)) else None)
    {
      MovePrefixes(MoveOps(address, left, right), |ops|, reply);
      var e := Write(Motors.Left(address, ToInt8(left)));
      if e.Some? {
        return Some(Raw(e.value));
      }
      e := Write(Motors.Right(address, ToInt8(right)));
      if e.Some? {
        return Some(Raw(e.value));
      }
      e := Write(Motors.Left(address, 0));
      if e.Some? {
        return Some(Raw(e.value));
      }
      e := Write(Motors.Right(address, 0));
      if e.Some? {
        return Some(Raw(e.value));
      }
      err := None;
    }

    /** `ReadEncoders`: access, presence, then the four encoders in order; the first
        failure ends it, translated to Unavailable with its message
        (rpc/server.go:165-196, 35-38). */
    method ReadEncoders(md: Option<Metadata>) returns (values: seq<int32>, err: Option<RpcError>)
      requires am.Valid()
      modifies this, am
      ensures am.Valid() && queries == old(queries)
      ensures var a := Checked(md, old(am.cache), am.gcs, am.fetch);
        && am.cache == a.cache
        && am.fetches == old(am.fetches) + (if a.fetched then [GetUserAndToken(md).user] else [])
        && (a.result.value.Some? ==> err == Some(Raw(a.result.value.value)) && ops == old(ops))
        && (a.result.value.None? && !motors ==> err == Some(Raw(Error(MotorsBlocked))) && ops == old(ops))
        && (a.result.value.None? && motors ==>
              var n, c := |old(ops)|, ReadsBeforeFailure(|old(ops)|, read);
              && (c < 4 ==> && err == Some(Unavailable(read(n + c).error.message)) && values == []
                            && ops == old(ops) + EncoderReads(address)[..c + 1])
              && (c == 4 ==> && err.None? && ops == old(ops) + EncoderReads(address) && |values| == 4
                             && forall i :: 0 <= i < 4 ==> values[i] == Motors.DecodeInt32(read(n + i).value)))
    {
      var e := CheckAccess(md);
      if e.Some? {
        return [], Some(Raw(e.value));
      }
      if !motors {
        return [], Some(Raw(Error(MotorsBlocked)));
      }
      values, err := ReadAll();
    }

    /** The four encoder reads of `ReadEncoders`, up to the first failure. */
    method ReadAll() returns (values: seq<int32>, err: Option<RpcError>)
      modifies this
      ensures queries == old(queries)
      ensures var n, c := |old(ops)|, ReadsBeforeFailure(|old(ops)|, read);
        && (c < 4 ==> && err == Some(Unavailable(read(n + c).error.message)) && values == []
                      && ops == old(ops) + EncoderReads(address)[..c + 1])
        && (c == 4 ==> && err.None? && ops == old(ops) + EncoderReads(address) && |values| == 4
                       && forall i :: 0 <= i < 4 ==> values[i] == Motors.DecodeInt32(read(n + i).value))
    {
      ghost var n := |ops|;
      var leftFront, leftBack, rightFront, rightBack: int32;
      var e;
      leftFront, e := ReadEncoder(Motors.RegisterEncoderLeftFront);
      if e.Some? {
        return [], Some(Unavailable(e.value.message));
      }
      leftBack, e := ReadEncoder(Motors.RegisterEncoderLeftBack);
      if e.Some? {
        return [], Some(Unavailable(e.value.message));
      }
      rightFront, e := ReadEncoder(Motors.RegisterEncoderRightFront);
      if e.Some? {
        return [], Some(Unavailable(e.value.message));
      }
      rightBack, e := ReadEncoder(Motors.RegisterEncoderRightBack);
      if e.Some? {
        return [], Some(Unavailable(e.value.message));
      }
      values, err := [leftFront, leftBack, rightFront, rightBack], None;
    }

    /** `GetBatteryPercentage`, `GetAmbientLight` and `GetTemperatureAndHumidity`:
        access, the board's presence, then the named board reading, whose failure is
        translated to Unavailable (rpc/server.go:103-162). */
    method BoardQuery(md: Option<Metadata>, query: string, reading: Result<seq<int>, Error>)
      returns (values: seq<int>, err: Option<RpcError>)
      requires am.Valid()
      modifies this, am
      ensures am.Valid() && ops == old(ops)
      ensures var a := Checked(md, old(am.cache), am.gcs, am.fetch);
        && am.cache == a.cache
        && am.fetches == old(am.fetches) + (if a.fetched then [GetUserAndToken(md).user] else [])
        && (a.result.value.Some? ==> err == Some(Raw(a.result.value.value)) && queries == old(queries))
        && (a.result.value.None? && !board ==> err == Some(Raw(Error(BoardBlocked))) && queries == old(queries))
        && (a.result.value.None? && board ==>
              && queries == old(queries) + [query]
              && (reading.Ok? ==> values == reading.value && err.None?)
              && (reading.Err? ==> err == Some(Unavailable(reading.error.message))))
    {
      var e := CheckAccess(md);
      if e.Some? {
        return [], Some(Raw(e.value));
      }
      if !board {
        return [], Some(Raw(Error(BoardBlocked)));
      }
      queries := queries + [query];
      if reading.Err? {
        return [], Some(Unavailable(reading.error.message));
      }
      values, err := reading.value, None;
    }
  }

  /** `Writes` on the four moves, unfolded. */
  lemma MovePrefixes(all: seq<BusOp>, n: nat, reply: nat -> Option<Error>)
    requires |all| == 4
    ensures reply(n).Some? ==> Writes(all, n, reply) == (1, reply(n))
    ensures reply(n).None? && reply(n + 1).Some? ==> Writes(all, n, reply) == (2, reply(n + 1))
    ensures reply(n).None? && reply(n + 1).None? && reply(n + 2).Some? ==> Writes(all, n, reply) == (3, reply(n + 2))
    ensures reply(n).None? && reply(n + 1).None? && reply(n + 2).None? ==> Writes(all, n, reply) == (4, reply(n + 3))
  {
    assert all[1..][1..][1..][1..] == [];
  }

  /** The guards come first: a request that fails the access check, or reaches a
      server without the hardware, makes no hardware call; and a passing request
      moves the motors exactly as asked, ending stopped (rpc/server.go:79-99). */
  lemma MoveRoverWrites(addr: byte, left: int, right: int, n: nat, reply: nat -> Option<Error>)
    ensures var ops := MoveOps(addr, left, right);
      && |ops| == 4 && ops[0].reg == Motors.RegisterMotorLeft && ops[1].reg == Motors.RegisterMotorRight
      && Motors.SpeedOf(ops[0].value) == ToInt8(left) && Motors.SpeedOf(ops[1].value) == ToInt8(right)
      && ops[2] == Motors.Left(addr, 0) && ops[3] == Motors.Right(addr, 0)
      && Motors.SpeedOf(ops[2].value) == 0 && Motors.SpeedOf(ops[3].value) == 0
      && (Writes(ops, n, reply).1.None? <==> forall k :: n <= k < n + 4 ==> reply(k).None?)
  {
    Motors.MotorWriteDecodes(addr, ToInt8(left));
    Motors.MotorWriteDecodes(addr, ToInt8(right));
    Motors.MotorWriteDecodes(addr, 0);
  }
}
