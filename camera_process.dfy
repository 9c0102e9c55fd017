/** The capture process of camera/process.go: the argument lists of `raspivid` and
    `raspistill`, and how `Run` turns a failed capture into one error message. The
    process itself is left out; how it ended and what it wrote to stderr are inputs. */
module CameraProcess {
  import opened Base

  /** A command line: the program and its arguments. */
  datatype Command = Command(path: string, args: seq<string>)

  /** `cameraArgs`: no preview window, a flipped viewport, output to stdout. */
  const CameraArgs: seq<string> := ["--nopreview", "--vflip", "--hflip", "-o", "-"]

  /** `newProcess`: the specific arguments, then the shared ones. */
  function NewProcess(command: string, args: seq<string>): (c: Command)
    ensures c.path == command && |c.args| == |args| + 5
    ensures c.args[..|args|] == args && c.args[|args|..] == CameraArgs
  {
    Command(command, args + CameraArgs)
  }

  function NewVideoProcess(width: int, height: int, fps: int): Command
  {
    NewProcess("raspivid", ["--width", IntToString(width), "--height", IntToString(height),
                            "--timeout", "0", "--framerate", IntToString(fps), "--vstab"])
  }

  function NewPictureProcess(width: int, height: int, quality: int): Command
  {
    NewProcess("raspistill", ["--width", IntToString(width), "--height", IntToString(height),
                              "--quality", IntToString(quality)])
  }

  /** The argument after the first occurrence of `flag`, if there is one. */
  function OptionValue(args: seq<string>, flag: string): (v: Option<string>)
    ensures v.Some? ==> exists i :: 0 <= i < |args| - 1 && args[i] == flag && args[i + 1] == v.value
  {
    if |args| < 2 then None
    else if args[0] == flag then Some(args[1])
    else OptionValue(args[1..], flag)
  }

  /** The value of an option that first occurs at `i`. */
  lemma {:induction false} OptionValueAt(args: seq<string>, flag: string, i: nat)
    requires i + 1 < |args| && args[i] == flag
    requires forall k :: 0 <= k < i ==> args[k] != flag
    ensures OptionValue(args, flag) == Some(args[i + 1])
  {
    if i > 0 {
      assert forall k :: 0 <= k < i - 1 ==> args[1..][k] == args[k + 1];
      OptionValueAt(args[1..], flag, i - 1);
    }
  }

  /** An argument that names an option. */
  predicate IsFlag(s: string)
  {
    |s| >= 2 && s[0] == '-' && s[1] == '-'
  }

  /** A printed number is never an option name. */
  lemma NumberIsNotFlag(x: int)
    ensures !IsFlag(IntToString(x))
  {
  }

  /** In a video argument list with option values `w`, `h` and `f` that are not
      option names, each option is followed by its value. */
  lemma VideoOptions(w: string, h: string, f: string)
    requires !IsFlag(w) && !IsFlag(h)
    ensures var a := ["--width", w, "--height", h, "--timeout", "0", "--framerate", f, "--vstab"] + CameraArgs;
      && OptionValue(a, "--width") == Some(w) && OptionValue(a, "--height") == Some(h)
      && OptionValue(a, "--timeout") == Some("0") && OptionValue(a, "--framerate") == Some(f)
  {
    VideoSize(w, h, f);
    VideoTiming(w, h, f);
  }

  lemma VideoSize(w: string, h: string, f: string)
    requires !IsFlag(w)
    ensures var a := ["--width", w, "--height", h, "--timeout", "0", "--framerate", f, "--vstab"] + CameraArgs;
      OptionValue(a, "--width") == Some(w) && OptionValue(a, "--height") == Some(h)
  {
    var a := ["--width", w, "--height", h, "--timeout", "0", "--framerate", f, "--vstab"] + CameraArgs;
    assert a[0] != "--height";
    OptionValueAt(a, "--width", 0);
    OptionValueAt(a, "--height", 2);
  }

  lemma VideoTiming(w: string, h: string, f: string)
    requires !IsFlag(w) && !IsFlag(h)
    ensures var a := ["--width", w, "--height", h, "--timeout", "0", "--framerate", f, "--vstab"] + CameraArgs;
      OptionValue(a, "--timeout") == Some("0") && OptionValue(a, "--framerate") == Some(f)
  {
    var a := ["--width", w, "--height", h, "--timeout", "0", "--framerate", f, "--vstab"] + CameraArgs;
    assert a[0] != "--timeout" && a[2] != "--timeout";
    assert a[0] != "--framerate" && a[2] != "--framerate" && a[4] != "--framerate";
    OptionValueAt(a, "--timeout", 4);
    OptionValueAt(a, "--framerate", 6);
  }

  /** The same for a picture argument list with values `w`, `h` and `q`. */
  lemma PictureOptions(w: string, h: string, q: string)
    requires !IsFlag(w) && !IsFlag(h)
    ensures var a := ["--width", w, "--height", h, "--quality", q] + CameraArgs;
      OptionValue(a, "--width") == Some(w) && OptionValue(a, "--height") == Some(h) && OptionValue(a, "--quality") == Some(q)
  {
    var a := ["--width", w, "--height", h, "--quality", q] + CameraArgs;
    assert a[0] != "--height" && a[0] != "--quality" && a[2] != "--quality";
    OptionValueAt(a, "--width", 0);
    OptionValueAt(a, "--height", 2);
    OptionValueAt(a, "--quality", 4);
  }

  /** The video process passes width, height and frame rate as printed, a zero
      timeout, stabilisation, and output to stdout last (camera/process.go:18-44). */
  lemma VideoArguments(width: int, height: int, fps: int)
    ensures var c := NewVideoProcess(width, height, fps);
      && c.path == "raspivid"
      && OptionValue(c.args, "--width") == Some(IntToString(width))
      && OptionValue(c.args, "--height") == Some(IntToString(height))
      && OptionValue(c.args, "--framerate") == Some(IntToString(fps))
      && OptionValue(c.args, "--timeout") == Some("0")
      && c.args[8] == "--vstab" && c.args[|c.args| - 2] == "-o" && c.args[|c.args| - 1] == "-"
  {
    var w, h, f := IntToString(width), IntToString(height), IntToString(fps);
    NumberIsNotFlag(width);
    NumberIsNotFlag(height);
    VideoOptions(w, h, f);
    var a := ["--width", w, "--height", h, "--timeout", "0", "--framerate", f, "--vstab"] + CameraArgs;
    assert NewVideoProcess(width, height, fps).args == a;
  }

  /** The picture process passes width, height and quality as printed
      (camera/process.go:46-52). */
  lemma PictureArguments(width: int, height: int, quality: int)
    ensures var c := NewPictureProcess(width, height, quality);
      && c.path == "raspistill"
      && OptionValue(c.args, "--width") == Some(IntToString(width))
      && OptionValue(c.args, "--height") == Some(IntToString(height))
      && OptionValue(c.args, "--quality") == Some(IntToString(quality))
      && c.args[|c.args| - 2] == "-o" && c.args[|c.args| - 1] == "-"
  {
    NumberIsNotFlag(width);
    NumberIsNotFlag(height);
    PictureOptions(IntToString(width), IntToString(height), IntToString(quality));
  }

  /** How a child process ended, as `syscall.WaitStatus` tells it. */
  datatype Wait = Exited(code: int) | Signaled(signal: int) | Stopped

  /** The error of `Cmd.Run`: an `*exec.ExitError` carries the wait status; any other
      error (the program could not be started, say) carries only its message. */
  datatype RunFailure = ExitError(message: string, status: Wait) | OtherError(message: string)

  const Sigpipe: int := 13
  /** The exit code of a capture program that lacks resources. */
  const NoResources: int := 70
  /** The first line of every error message, and the text it starts with. */
  const FailureLabel: string := "Failed to render a capture:"
  const FailurePrefix: string := FailureLabel + " "
  const BusyHint: string := "Possible reason: another capture is already running."
  const DetailsPrefix: string := "Technical details:\n"

  /** The characters Go's `unicode.IsSpace` accepts. */
  predicate IsSpace(c: char)
  {
    var n := c as int;
    (9 <= n <= 13) || n == 32 || n == 0x85 || n == 0xA0 || n == 0x1680
    || (0x2000 <= n <= 0x200A) || n == 0x2028 || n == 0x2029 || n == 0x202F || n == 0x205F || n == 0x3000
  }

  /** The index of the first non-space character at or after `i`, or `|s|`. */
  function TrimStart(s: string, i: nat): (k: nat)
    requires i <= |s|
    ensures i <= k <= |s|
    ensures forall m :: i <= m < k ==> IsSpace(s[m])
    ensures k < |s| ==> !IsSpace(s[k])
    decreases |s| - i
  {
    if i < |s| && IsSpace(s[i]) then TrimStart(s, i + 1) else i
  }

  /** The index just past the last non-space character of `s[lo..j]`, or `lo`. */
  function TrimEnd(s: string, lo: nat, j: nat): (k: nat)
    requires lo <= j <= |s|
    ensures lo <= k <= j
    ensures forall m :: k <= m < j ==> IsSpace(s[m])
    ensures k > lo ==> !IsSpace(s[k - 1])
  {
    if j > lo && IsSpace(s[j - 1]) then TrimEnd(s, lo, j - 1) else j
  }

  /** `r` is `s[i..j]` and `s` has only white space outside that slice. */
  predicate SpaceAround(s: string, r: string, i: nat, j: nat)
  {
    && i <= j <= |s| && r == s[i..j]
    && (forall k :: 0 <= k < i ==> IsSpace(s[k]))
    && (forall k :: j <= k < |s| ==> IsSpace(s[k]))
  }

  /** `strings.TrimSpace`: the longest part of `s` that neither starts nor ends with
      white space, after dropping only white space on either side. */
  function TrimSpace(s: string): (r: string)
    ensures exists i: nat, j: nat :: SpaceAround(s, r, i, j)
    ensures |r| > 0 ==> !IsSpace(r[0]) && !IsSpace(r[|r| - 1])
  {
    var i := TrimStart(s, 0);
    var j := TrimEnd(s, i, |s|);
    assert SpaceAround(s, s[i..j], i, j);
    s[i..j]
  }

  /** A text without white space at either end is its own trimming. */
  lemma TrimUnchanged(s: string)
    requires |s| > 0 && !IsSpace(s[0]) && !IsSpace(s[|s| - 1])
    ensures TrimSpace(s) == s
  {
    assert TrimStart(s, 0) == 0;
    assert TrimEnd(s, 0, |s|) == |s|;
    assert s[0..|s|] == s;
  }

  /** Trimming twice is trimming once. */
  lemma TrimSpaceIdempotent(s: string)
    ensures TrimSpace(TrimSpace(s)) == TrimSpace(s)
  {
    var t := TrimSpace(s);
    if |t| > 0 {
      TrimUnchanged(t);
    }
  }

  /** A text that starts and ends with a non-space character survives the trimming of
      anything it starts. */
  lemma TrimKeepsHead(p: string, q: string)
    requires |p| > 0 && !IsSpace(p[0]) && !IsSpace(p[|p| - 1])
    ensures |TrimSpace(p + q)| >= |p| && TrimSpace(p + q)[..|p|] == p
  {
    var s := p + q;
    assert s[0] == p[0];
    assert TrimStart(s, 0) == 0;
    var j := TrimEnd(s, 0, |s|);
    assert s[|p| - 1] == p[|p| - 1];
    assert j >= |p|;
    assert TrimSpace(s) == s[0..j];
    assert s[0..j][..|p|] == p;
  }

  /** The lines of the message before trimming: the failure, the busy hint after exit
      code 70, and the stderr text of a failed program when there is one. */
  function FailureParts(f: RunFailure, stderr: string): seq<string>
  {
    [FailurePrefix + f.message]
    + (if f.ExitError? && f.status == Exited(NoResources) then [BusyHint] else [])
    + (if f.ExitError? && stderr != "" then [DetailsPrefix + stderr] else [])
  }

  function Trimmed(parts: seq<string>): (r: seq<string>)
    ensures |r| == |parts| && forall k :: 0 <= k < |r| ==> r[k] == TrimSpace(parts[k])
  {
    seq(|parts|, k requires 0 <= k < |parts| => TrimSpace(parts[k]))
  }

  /** What `Run` returns after the process ended with `failure` (`None` when it
      succeeded) and wrote `stderr`. A program killed by SIGPIPE has lost its reader,
      which is not an error. */
  function RunError(failure: Option<RunFailure>, stderr: string): Option<Error>
  {
    if failure.None? then None
    else if failure.value.ExitError? && failure.value.status == Signaled(Sigpipe) then None
    else Some(Error(Join(Trimmed(FailureParts(failure.value, stderr)), "\n")))
  }

  /** `Run`: the message parts are collected, then trimmed one by one in place and
      joined with newlines (camera/process.go:55-88). */
  method Run(failure: Option<RunFailure>, stderr: string) returns (err: Option<Error>)
    ensures err == RunError(failure, stderr)
  {
    if failure.None? {
      return None;
    }
    var f := failure.value;
    var errorStrings := [FailurePrefix + f.message];
    if f.ExitError? {
      if f.status == Exited(NoResources) {
        errorStrings := errorStrings + [BusyHint];
      } else if f.status == Signaled(Sigpipe) {
        return None;
      }
      if stderr != "" {
        errorStrings := errorStrings + [DetailsPrefix + stderr];
      }
    }
    assert errorStrings == FailureParts(f, stderr);
    errorStrings := TrimAll(errorStrings);
    return Some(Error(Join(errorStrings, "\n")));
  }

  /** The loop of `Run` that trims each message part in place. */
  method TrimAll(parts: seq<string>) returns (errorStrings: seq<string>)
    ensures errorStrings == Trimmed(parts)
  {
    errorStrings := parts;
    var index := 0;
    while index < |errorStrings|
      invariant 0 <= index <= |errorStrings| == |parts|
      invariant forall k :: 0 <= k < index ==> errorStrings[k] == TrimSpace(parts[k])
      invariant forall k :: index <= k < |errorStrings| ==> errorStrings[k] == parts[k]
    {
      errorStrings := errorStrings[index := TrimSpace(errorStrings[index])];
      index := index + 1;
    }
  }

  /** Success and SIGPIPE are the two outcomes without an error (camera/process.go:59,
      68-74, 87). */
  lemma RunErrorCases(failure: Option<RunFailure>, stderr: string)
    ensures RunError(failure, stderr).None? <==>
      failure.None? || (failure.value.ExitError? && failure.value.status == Signaled(Sigpipe))
  {
  }

  /** Every error message starts with the failure label (camera/process.go:60). */
  lemma RunErrorStartsWithFailure(failure: Option<RunFailure>, stderr: string)
    requires RunError(failure, stderr).Some?
    ensures var m := RunError(failure, stderr).value.message;
      |m| >= |FailureLabel| && m[..|FailureLabel|] == FailureLabel
  {
    var f := failure.value;
    AppendAssoc(FailureLabel, " ", f.message);
    LabelEnds();
    TrimmedJoinHead(FailureParts(f, stderr), FailureLabel, " " + f.message);
  }

  /** The label neither starts nor ends with white space. */
  lemma LabelEnds()
    ensures |FailureLabel| > 0 && !IsSpace(FailureLabel[0]) && !IsSpace(FailureLabel[|FailureLabel| - 1])
  {
  }

  /** When the first line starts with a text that has no white space at its ends, the
      trimmed lines joined start with that text. */
  lemma TrimmedJoinHead(parts: seq<string>, head: string, rest: string)
    requires |parts| > 0 && parts[0] == head + rest
    requires |head| > 0 && !IsSpace(head[0]) && !IsSpace(head[|head| - 1])
    ensures var m := Join(Trimmed(parts), "\n"); |m| >= |head| && m[..|head|] == head
  {
    var t := Trimmed(parts);
    TrimKeepsHead(head, rest);
    JoinHead(t, "\n");
  }

  /** An error that is not an exit gives the failure line alone, whatever the
      program wrote to stderr (camera/process.go:76-77). */
  lemma RunErrorNotExit(f: RunFailure, stderr: string)
    requires f.OtherError?
    ensures RunError(Some(f), stderr).value.message == TrimSpace(FailurePrefix + f.message)
  {
    assert FailureParts(f, stderr) == [FailurePrefix + f.message];
    TrimmedJoin1(FailurePrefix + f.message);
  }

  /** Exit code 70 adds the busy hint as the second line, before any stderr text
      (camera/process.go:63-67, 76-80). */
  lemma RunErrorBusy(f: RunFailure, stderr: string)
    requires f.ExitError? && f.status == Exited(NoResources)
    ensures var first := TrimSpace(FailurePrefix + f.message);
      RunError(Some(f), stderr).value.message ==
        if stderr == "" then first + "\n" + TrimSpace(BusyHint)
        else first + "\n" + TrimSpace(BusyHint) + ("\n" + TrimSpace(DetailsPrefix + stderr))
  {
    var first, details := FailurePrefix + f.message, DetailsPrefix + stderr;
    if stderr != "" {
      assert FailureParts(f, stderr) == [first, BusyHint, details];
      TrimmedJoin3(first, BusyHint, details);
    } else {
      assert FailureParts(f, stderr) == [first, BusyHint];
      TrimmedJoin2(first, BusyHint);
    }
  }

  /** Any other exit, apart from SIGPIPE, gives the failure line and, when the program
      wrote to stderr, the technical details (camera/process.go:76-85). */
  lemma RunErrorDetails(f: RunFailure, stderr: string)
    requires f.ExitError? && f.status != Exited(NoResources) && f.status != Signaled(Sigpipe)
    ensures var first := TrimSpace(FailurePrefix + f.message);
      RunError(Some(f), stderr).value.message ==
        if stderr == "" then first else first + "\n" + TrimSpace(DetailsPrefix + stderr)
  {
    var first, details := FailurePrefix + f.message, DetailsPrefix + stderr;
    if stderr != "" {
      assert FailureParts(f, stderr) == [first, details];
      TrimmedJoin2(first, details);
    } else {
      assert FailureParts(f, stderr) == [first];
      TrimmedJoin1(first);
    }
  }

  lemma TrimmedJoin1(a: string)
    ensures Join(Trimmed([a]), "\n") == TrimSpace(a)
  {
    assert Trimmed([a]) == [TrimSpace(a)];
  }

  lemma TrimmedJoin2(a: string, b: string)
    ensures Join(Trimmed([a, b]), "\n") == TrimSpace(a) + "\n" + TrimSpace(b)
  {
    assert Trimmed([a, b]) == [TrimSpace(a), TrimSpace(b)];
    assert [TrimSpace(a), TrimSpace(b)][1..] == [TrimSpace(b)];
  }

  lemma TrimmedJoin3(a: string, b: string, c: string)
    ensures Join(Trimmed([a, b, c]), "\n") == TrimSpace(a) + "\n" + TrimSpace(b) + ("\n" + TrimSpace(c))
  {
    var x, y, z := TrimSpace(a), TrimSpace(b), TrimSpace(c);
    assert Trimmed([a, b, c]) == [x, y, z];
    assert [x, y, z][1..] == [y, z];
    assert [y, z][1..] == [z];
    assert Join([y, z], "\n") == y + "\n" + z;
    assert Join([x, y, z], "\n") == x + "\n" + (y + "\n" + z);
    AppendAssoc(x + "\n", y, "\n" + z);
    AppendAssoc(y, "\n", z);
  }
}
