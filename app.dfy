/** The password and routing logic of the rover's main program (main.go): the
    `KEY=value` password file, the password and metadata checks of its gRPC
    handlers, and the predicate that sends HTTP/2 gRPC traffic to the gRPC server.
    The file's lines (as the line scanner delivers them) and the request's metadata
    are inputs. A Go index out of range is a `Panicked` outcome. */
module App {
  import opened Base

  /** The message of Go's runtime panic for `x[index]` on a slice of `length`. */
  function IndexOutOfRange(index: nat, length: nat): string
  {
    "runtime error: index out of range [" + NatToString(index) + "] with length " + NatToString(length)
  }

  /** `strings.Split(s, string(sep))`: the pieces of `s` between the separators. */
  function Split(s: string, sep: char): (fields: seq<string>)
    ensures |fields| > 0
  {
    if |s| == 0 then [""]
    else if s[0] == sep then [""] + Split(s[1..], sep)
    else var rest := Split(s[1..], sep); [[s[0]] + rest[0]] + rest[1..]
  }

  /** The pieces join back to `s`, none holds the separator, and there is one more
      piece than there are separators. */
  lemma SplitJoin(s: string, sep: char)
    ensures Join(Split(s, sep), [sep]) == s
    ensures forall i :: 0 <= i < |Split(s, sep)| ==> sep !in Split(s, sep)[i]
    ensures |Split(s, sep)| == multiset(s)[sep] + 1
  {
    SplitJoinBack(s, sep);
    SplitPiecesClean(s, sep);
    SplitCount(s, sep);
  }

  lemma {:induction false} SplitJoinBack(s: string, sep: char)
    ensures Join(Split(s, sep), [sep]) == s
  {
    if |s| > 0 {
      var rest := Split(s[1..], sep);
      SplitJoinBack(s[1..], sep);
      assert s == [s[0]] + s[1..];
      if s[0] != sep && |rest| > 1 {
        calc {
          Join(Split(s, sep), [sep]);
          ([s[0]] + rest[0]) + [sep] + Join(rest[1..], [sep]);
          { AppendAssoc([s[0]] + rest[0], [sep], Join(rest[1..], [sep])); }
          ([s[0]] + rest[0]) + ([sep] + Join(rest[1..], [sep]));
          { AppendAssoc([s[0]], rest[0], [sep] + Join(rest[1..], [sep])); }
          [s[0]] + (rest[0] + ([sep] + Join(rest[1..], [sep])));
          { AppendAssoc(rest[0], [sep], Join(rest[1..], [sep])); }
          [s[0]] + Join(rest, [sep]);
        }
      }
    }
  }

  lemma {:induction false} SplitPiecesClean(s: string, sep: char)
    ensures forall i :: 0 <= i < |Split(s, sep)| ==> sep !in Split(s, sep)[i]
  {
    if |s| > 0 {
      SplitPiecesClean(s[1..], sep);
    }
  }

  lemma {:induction false} SplitCount(s: string, sep: char)
    ensures |Split(s, sep)| == multiset(s)[sep] + 1
  {
    if |s| > 0 {
      SplitCount(s[1..], sep);
      assert s == [s[0]] + s[1..];
      assert multiset(s) == multiset([s[0]]) + multiset(s[1..]);
    }
  }

  /** A first piece without the separator comes off whole. */
  lemma {:induction false} SplitAfter(k: string, rest: string, sep: char)
    requires sep !in k
    ensures Split(k + [sep] + rest, sep) == [k] + Split(rest, sep)
  {
    if |k| > 0 {
      SplitAfter(k[1..], rest, sep);
      assert (k + [sep] + rest)[1..] == k[1..] + [sep] + rest;
      assert [k[0]] + k[1..] == k;
    } else {
      assert k + [sep] + rest == [sep] + rest;
    }
  }

  lemma {:induction false} SplitNone(k: string, sep: char)
    requires sep !in k
    ensures Split(k, sep) == [k]
  {
    if |k| > 0 {
      SplitNone(k[1..], sep);
      assert [k[0]] + k[1..] == k;
    }
  }

  const PasswordKey: string := "CAPTURE_PASSWORD"
  const EmptyFile: string := "Empty file"
  const WrongPassword: string := "Wrong password for getting data"

  /** A line whose text before its first `=` is the key. */
  predicate KeyLine(line: string)
  {
    Split(line, '=')[0] == PasswordKey
  }

  /** `i` is the first key line. */
  predicate FirstKeyLine(lines: seq<string>, i: int)
  {
    0 <= i < |lines| && KeyLine(lines[i]) && forall j :: 0 <= j < i ==> !KeyLine(lines[j])
  }

  /** What the scan of `readPasswordFromFile` makes of the lines of an opened file. */
  function PasswordOf(lines: seq<string>): Fallible<Result<string, Error>>
  {
    if |lines| == 0 then Returned(Err(Error(EmptyFile)))
    else
      var f := Split(lines[0], '=');
      if f[0] != PasswordKey then PasswordOf(lines[1..])
      else if |f| < 2 then Panicked(IndexOutOfRange(1, |f|))
      else Returned(Ok(f[1]))
  }

  /** `readPasswordFromFile`: an open error is returned; otherwise the scan stops at
      the first line whose `=`-split field 0 is the key and returns field 1, and a
      file without such a line is an error (main.go:113-131). */
  method ReadPasswordFromFile(open: Option<Error>, lines: seq<string>) returns (r: Fallible<Result<string, Error>>)
    ensures open.Some? ==> r == Returned(Err(open.value))
    ensures open.None? ==> r == PasswordOf(lines)
  {
    if open.Some? {
      return Returned(Err(open.value));
    }
    var i := 0;
    while i < |lines|
      invariant 0 <= i <= |lines|
      invariant PasswordOf(lines[i..]) == PasswordOf(lines)
    {
      var nameAndValue := Split(lines[i], '=');
      if nameAndValue[0] == PasswordKey {
        if |nameAndValue| < 2 {
          return Panicked(IndexOutOfRange(1, |nameAndValue|));
        }
        return Returned(Ok(nameAndValue[1]));
      }
      assert lines[i..][1..] == lines[i + 1..];
      i := i + 1;
    }
    return Returned(Err(Error(EmptyFile)));
  }

  /** A key line has a field 1 exactly when it is not the bare key. */
  lemma KeyLineFields(line: string)
    requires KeyLine(line)
    ensures |Split(line, '=')| < 2 <==> line == PasswordKey
  {
    SplitJoin(line, '=');
    if line == PasswordKey {
      assert '=' !in PasswordKey;
      SplitNone(line, '=');
    }
  }

  /** The scan's outcome is "Empty file" iff no line is a key line, and a key line
      always ends the scan (main.go:124-130). */
  lemma {:induction false} PasswordOfLines(lines: seq<string>)
    ensures PasswordOf(lines) == Returned(Err(Error(EmptyFile))) <==> forall i :: 0 <= i < |lines| ==> !KeyLine(lines[i])
    ensures PasswordOf(lines).Panicked? || PasswordOf(lines).value.Ok? || PasswordOf(lines) == Returned(Err(Error(EmptyFile)))
  {
    if |lines| > 0 {
      PasswordOfLines(lines[1..]);
      if !KeyLine(lines[0]) {
        assert forall i :: 0 < i < |lines| ==> lines[i] == lines[1..][i - 1];
      }
    }
  }

  /** At the first key line the scan panics if the line is the bare key, and returns
      its field 1 otherwise (main.go:125-127). */
  lemma {:induction false} PasswordAtFirstKeyLine(lines: seq<string>, i: int)
    requires FirstKeyLine(lines, i)
    ensures lines[i] == PasswordKey ==> PasswordOf(lines) == Panicked(IndexOutOfRange(1, 1))
    ensures lines[i] != PasswordKey ==> |Split(lines[i], '=')| >= 2 && PasswordOf(lines) == Returned(Ok(Split(lines[i], '=')[1]))
  {
    if i == 0 {
      PasswordAtHead(lines);
    } else {
      assert !KeyLine(lines[0]);
      assert PasswordOf(lines) == PasswordOf(lines[1..]);
      assert FirstKeyLine(lines[1..], i - 1) by {
        assert forall j :: 0 <= j < i - 1 ==> lines[1..][j] == lines[j + 1];
      }
      PasswordAtFirstKeyLine(lines[1..], i - 1);
    }
  }

  lemma PasswordAtHead(lines: seq<string>)
    requires |lines| > 0 && KeyLine(lines[0])
    ensures lines[0] == PasswordKey ==> PasswordOf(lines) == Panicked(IndexOutOfRange(1, 1))
    ensures lines[0] != PasswordKey ==> |Split(lines[0], '=')| >= 2 && PasswordOf(lines) == Returned(Ok(Split(lines[0], '=')[1]))
  {
    KeyLineFields(lines[0]);
    if lines[0] == PasswordKey {
      SplitNone(lines[0], '=');
    }
  }

  /** The value ends at the line's next `=`, or at its end. */
  lemma PasswordValue(v: string, rest: string)
    requires '=' !in v
    ensures PasswordOf([PasswordKey + "=" + v]) == Returned(Ok(v))
    ensures PasswordOf([PasswordKey + "=" + v + "=" + rest]) == Returned(Ok(v))
  {
    assert '=' !in PasswordKey;
    SplitAfter(PasswordKey, v, '=');
    SplitNone(v, '=');
    assert PasswordKey + "=" + v + "=" + rest == PasswordKey + ['='] + (v + ['='] + rest);
    SplitAfter(PasswordKey, v + ['='] + rest, '=');
    SplitAfter(v, rest, '=');
  }

  /** `validatePassword`, given what reading the password file gave: the file's error,
      or success iff the password equals the file's (main.go:133-142). */
  function ValidatePassword(password: string, file: Fallible<Result<string, Error>>): (r: Fallible<Option<Error>>)
    ensures r == Returned(None) <==> file == Returned(Ok(password))
    ensures r.Panicked? <==> file.Panicked?
    ensures file.Returned? && file.value.Err? ==> r == Returned(Some(file.value.error))
    ensures file.Returned? && file.value.Ok? && file.value.value != password ==> r == Returned(Some(Error(WrongPassword)))
  {
    match file
    case Panicked(reason) => Panicked(reason)
    case Returned(Err(e)) => Returned(Some(e))
    case Returned(Ok(pwd)) => if password != pwd then Returned(Some(Error(WrongPassword))) else Returned(None)
  }

  /** A password is accepted iff the file opens and its first key line has it as its
      field 1. */
  lemma ValidateAgainstFile(password: string, lines: seq<string>)
    ensures ValidatePassword(password, PasswordOf(lines)) == Returned(None) <==>
      exists i :: FirstKeyLine(lines, i) && |Split(lines[i], '=')| >= 2 && Split(lines[i], '=')[1] == password
  {
    PasswordOfLines(lines);
    if ValidatePassword(password, PasswordOf(lines)) == Returned(None) {
      var i := FirstIndex(lines);
      PasswordAtFirstKeyLine(lines, i);
    }
    forall i | FirstKeyLine(lines, i) && |Split(lines[i], '=')| >= 2
      ensures PasswordOf(lines) == Returned(Ok(Split(lines[i], '=')[1]))
    {
      KeyLineFields(lines[i]);
      PasswordAtFirstKeyLine(lines, i);
    }
  }

  /** The first key line of lines that have one. */
  lemma {:induction false} FirstIndex(lines: seq<string>) returns (i: int)
    requires exists k :: 0 <= k < |lines| && KeyLine(lines[k])
    ensures FirstKeyLine(lines, i)
  {
    if KeyLine(lines[0]) {
      i := 0;
    } else {
      var k :| 0 <= k < |lines| && KeyLine(lines[k]);
      assert KeyLine(lines[1..][k - 1]);
      var j := FirstIndex(lines[1..]);
      i := j + 1;
    }
  }

  const AuthenticationKey: string := "authentication"
  const NoMetadata: string := "Error appears getting metadata"

  /** `readAuthFromMetadata`: the first `authentication` value; a request without
      metadata is an error, and one whose metadata lacks the value panics
      (main.go:144-152). */
  function ReadAuthFromMetadata(md: Option<Metadata>): (r: Fallible<Result<string, Error>>)
    ensures md.None? <==> r == Returned(Err(Error(NoMetadata)))
    ensures r.Returned? && r.value.Ok? <==> md.Some? && AuthenticationKey in md.value && |md.value[AuthenticationKey]| > 0
    ensures r.Returned? && r.value.Ok? ==> r.value.value == md.value[AuthenticationKey][0]
  {
    if md.None? then Returned(Err(Error(NoMetadata)))
    else if AuthenticationKey !in md.value then Panicked(IndexOutOfRange(0, 0))
    else if |md.value[AuthenticationKey]| == 0 then Panicked(IndexOutOfRange(0, 0))
    else Returned(Ok(md.value[AuthenticationKey][0]))
  }

  /** `validateUser`: the metadata's password checked against the password file. */
  function ValidateUser(md: Option<Metadata>, file: Fallible<Result<string, Error>>): Fallible<Option<Error>>
  {
    match ReadAuthFromMetadata(md)
    case Panicked(reason) => Panicked(reason)
    case Returned(Err(e)) => Returned(Some(e))
    case Returned(Ok(pwd)) => ValidatePassword(pwd, file)
  }

  /** A user is admitted iff the request has an `authentication` value and the first
      one is the file's password (main.go:154-163). */
  lemma ValidateUserAdmits(md: Option<Metadata>, file: Fallible<Result<string, Error>>)
    ensures ValidateUser(md, file) == Returned(None) <==>
      && md.Some? && AuthenticationKey in md.value && |md.value[AuthenticationKey]| > 0
      && file == Returned(Ok(md.value[AuthenticationKey][0]))
  {
  }

  /** Where `routingHandler` sends a request. */
  datatype Route = GrpcHandler | OtherHandler

  const GrpcContentType: string := "application/grpc"

  /** `strings.Contains`: `sub` starts at the front of `s` or somewhere after it. */
  predicate Contains(s: string, sub: string)
    decreases |s|
  {
    (|sub| <= |s| && s[..|sub|] == sub) || (|s| > 0 && Contains(s[1..], sub))
  }

  /** `sub` occurs in `s` from index `i`. */
  predicate OccursAt(s: string, sub: string, i: int)
  {
    0 <= i <= |s| - |sub| && s[i..i + |sub|] == sub
  }

  /** `Contains` finds every occurrence and nothing else. */
  lemma {:induction false} ContainsAt(s: string, sub: string)
    ensures Contains(s, sub) <==> exists i :: OccursAt(s, sub, i)
  {
    if |s| > 0 {
      ContainsAt(s[1..], sub);
      if Contains(s[1..], sub) {
        var i :| OccursAt(s[1..], sub, i);
        assert OccursAt(s, sub, i + 1);
      }
      if |sub| <= |s| && s[..|sub|] == sub {
        assert OccursAt(s, sub, 0);
      }
      if exists i :: OccursAt(s, sub, i) {
        var i :| OccursAt(s, sub, i);
        if i > 0 {
          assert OccursAt(s[1..], sub, i - 1);
        }
      }
    } else if Contains(s, sub) {
      assert OccursAt(s, sub, 0);
    }
  }

  /** `routingHandler`, given the request's major protocol version and its
      Content-Type header ("" when absent). */
  function RoutingHandler(protoMajor: int, contentType: string): Route
  {
    if protoMajor == 2 && Contains(contentType, GrpcContentType) then GrpcHandler else OtherHandler
  }

  /** The gRPC handler gets exactly the HTTP/2 requests whose Content-Type holds
      "application/grpc" anywhere, so "application/grpc+proto" too; everything else
      goes to the other handler (main.go:195-204). */
  lemma Routing(protoMajor: int, contentType: string, a: string, b: string)
    ensures RoutingHandler(protoMajor, contentType) == GrpcHandler <==>
      && protoMajor == 2
      && exists i :: OccursAt(contentType, GrpcContentType, i)
    ensures RoutingHandler(2, a + GrpcContentType + b) == GrpcHandler
  {
    ContainsAt(contentType, GrpcContentType);
    var s := a + GrpcContentType + b;
    ContainsAt(s, GrpcContentType);
    assert OccursAt(s, GrpcContentType, |a|);
  }
}
