/** The HTTP capture handler of camera/server.go: it checks the password header,
    resolves the capture settings from the URL path and the request headers, and
    picks `raspivid` or `raspistill` with an argument list built from them. Running
    the command is an oracle; what it streams to the client is left out. */
module CameraServer {
  import opened Base
  import opened CameraProcess

  // Go's `strconv.Atoi` on a 64-bit platform.

  const MaxInt: int := 0x7FFF_FFFF_FFFF_FFFF
  const MinInt: int := -0x8000_0000_0000_0000
  const MaxUint64: int := 0xFFFF_FFFF_FFFF_FFFF

  predicate IsDigit(c: char)
  {
    '0' <= c <= '9'
  }

  predicate IsDigits(s: string)
  {
    forall i :: 0 <= i < |s| ==> IsDigit(s[i])
  }

  /** The number a string of decimal digits denotes. */
  function DigitsValue(s: string): nat
    requires IsDigits(s)
  {
    if |s| == 0 then 0 else DigitsValue(s[..|s| - 1]) * 10 + (s[|s| - 1] as int - '0' as int)
  }

  /** How `ParseUint` ends: a value, or the kind of its error. */
  datatype Scan = Scanned(value: nat) | BadSyntax | OutOfRange

  /** The digit loop of `ParseUint` in base 10: the first character that is not a
      digit is a syntax error, and the first digit that takes the value past 64 bits
      is a range error, whatever follows it. */
  function ScanDigits(s: string): (r: Scan)
    ensures r.Scanned? ==> r.value <= MaxUint64
  {
    if |s| == 0 then Scanned(0)
    else
      var p := ScanDigits(s[..|s| - 1]);
      if !p.Scanned? then p
      else if !IsDigit(s[|s| - 1]) then BadSyntax
      else if p.value * 10 + (s[|s| - 1] as int - '0' as int) > MaxUint64 then OutOfRange
      else Scanned(p.value * 10 + (s[|s| - 1] as int - '0' as int))
  }

  /** The scan succeeds exactly on digit strings whose value fits 64 bits, and then
      yields that value. */
  lemma {:induction false} ScanDigitsValue(s: string)
    ensures ScanDigits(s).Scanned? <==> IsDigits(s) && DigitsValue(s) <= MaxUint64
    ensures ScanDigits(s).Scanned? ==> ScanDigits(s).value == DigitsValue(s)
  {
    if |s| > 0 {
      var init := s[..|s| - 1];
      ScanDigitsValue(init);
      assert forall i :: 0 <= i < |init| ==> init[i] == s[i];
      if IsDigits(s) {
        assert IsDigits(init);
        if DigitsValue(init) > MaxUint64 {
          assert DigitsValue(s) >= DigitsValue(init) * 10;
        }
      }
    }
  }

  /** The error of a failed `Atoi`, named after the whole input. */
  datatype NumError = SyntaxError | RangeError

  /** A hexadecimal digit as `strconv` writes it, in lower case. */
  function LowerHex(d: int): char
    requires 0 <= d < 16
  {
    if d < 10 then ('0' as int + d) as char else ('a' as int + d - 10) as char
  }

  /** Go's `strconv.Quote`: the named escapes, `\x` and two hex digits for the other
      control characters and DEL, every other character as is (the `\u` and `\U`
      escapes of non-printable characters above DEL are not modelled). */
  function Quote(s: string): string
  {
    "\"" + Escape(s) + "\""
  }

  function Escape(s: string): string
  {
    if |s| == 0 then ""
    else
      var c := s[0];
      var e := if c == '"' then "\\\"" else if c == '\\' then "\\\\" else if c == '\n' then "\\n"
               else if c == '\t' then "\\t" else if c == '\r' then "\\r"
               else if c == 7 as char then "\\a" else if c == 8 as char then "\\b"
               else if c == 12 as char then "\\f" else if c == 11 as char then "\\v"
               else if c < 32 as char || c == 127 as char then "\\x" + [LowerHex(c as int / 16), LowerHex(c as int % 16)]
               else [c];
      e + Escape(s[1..])
  }

  /** The text of a `NumError` from `Atoi`. */
  function NumErrorMessage(s: string, e: NumError): string
  {
    "strconv.Atoi: parsing " + Quote(s) + (if e.SyntaxError? then ": invalid syntax" else ": value out of range")
  }

  /** The pair `Atoi` returns: on a range error the value is clamped to the nearest
      bound, on a syntax error it is 0. */
  datatype Parsed = Parsed(value: int, err: Option<Error>)

  /** `n` with the sign of a `-` prefix. */
  function Signed(negative: bool, n: nat): int
  {
    if negative then -(n as int) else n
  }

  /** The digits of `s` after an optional sign. */
  function Unsigned(s: string): string
  {
    if |s| > 0 && (s[0] == '+' || s[0] == '-') then s[1..] else s
  }

  predicate Negative(s: string)
  {
    |s| > 0 && s[0] == '-'
  }

  /** `strconv.Atoi(s)`: `ParseInt(s, 10, 0)` with its errors renamed. */
  function Atoi(s: string): (p: Parsed)
    ensures p.err.None? ==> MinInt <= p.value <= MaxInt
  {
    var digits := Unsigned(s);
    var scan := if digits == "" then BadSyntax else ScanDigits(digits);
    if scan.BadSyntax? then Parsed(0, Some(Error(NumErrorMessage(s, SyntaxError))))
    else if scan.OutOfRange? then
      Parsed(if Negative(s) then MinInt else MaxInt, Some(Error(NumErrorMessage(s, RangeError))))
    else if !Negative(s) && scan.value > MaxInt then Parsed(MaxInt, Some(Error(NumErrorMessage(s, RangeError))))
    else if Negative(s) && scan.value > -MinInt then Parsed(MinInt, Some(Error(NumErrorMessage(s, RangeError))))
    else Parsed(Signed(Negative(s), scan.value), None)
  }

  /** `Atoi` accepts exactly an optionally signed, non-empty run of digits whose value
      fits 64 bits, and returns that value. */
  lemma AtoiAccepts(s: string)
    ensures var d := Unsigned(s);
      Atoi(s).err.None? <==>
        |d| > 0 && IsDigits(d) && MinInt <= Signed(Negative(s), DigitsValue(d)) <= MaxInt
    ensures var d := Unsigned(s);
      Atoi(s).err.None? ==> Atoi(s).value == Signed(Negative(s), DigitsValue(d))
  {
    ScanDigitsValue(Unsigned(s));
  }

  /** The digits of a natural number scan back to it. */
  lemma {:induction false} DigitsOfNat(n: nat)
    ensures IsDigits(NatToString(n)) && DigitsValue(NatToString(n)) == n
  {
    var s := NatToString(n);
    if n >= 10 {
      DigitsOfNat(n / 10);
      assert s[..|s| - 1] == NatToString(n / 10);
    }
  }

  /** `Atoi(strconv.Itoa(x))` gives `x` back for every 64-bit `x`: the arguments the
      handler prints are the settings it resolved. */
  lemma AtoiItoa(x: int)
    requires MinInt <= x <= MaxInt
    ensures Atoi(IntToString(x)) == Parsed(x, None)
  {
    if x < 0 {
      assert Unsigned(IntToString(x)) == NatToString(-x);
      DigitsOfNat(-x);
    } else {
      assert Unsigned(IntToString(x)) == NatToString(x);
      DigitsOfNat(x);
    }
    AtoiAccepts(IntToString(x));
  }

  /** `filepath.Ext`: from the last '.' of the final path element on, or "". */
  function Ext(path: string): (e: string)
    ensures e == "" || (e[0] == '.' && |e| <= |path| && e == path[|path| - |e|..])
  {
    ExtBefore(path, |path|)
  }

  /** The scan of `Ext` from index `i - 1` down to the last separator. */
  function ExtBefore(path: string, i: nat): (e: string)
    requires i <= |path|
    ensures e == "" || (e[0] == '.' && |path| - i < |e| <= |path| && e == path[|path| - |e|..])
  {
    if i == 0 || path[i - 1] == '/' then ""
    else if path[i - 1] == '.' then path[i - 1..]
    else ExtBefore(path, i - 1)
  }

  /** A path has the extension ".jpg" exactly when it ends with ".jpg"
      (camera/server.go:77). */
  lemma ExtJpg(path: string)
    ensures Ext(path) == ".jpg" <==> |path| >= 4 && path[|path| - 4..] == ".jpg"
  {
    if |path| >= 4 && path[|path| - 4..] == ".jpg" {
      EndsWithJpg(path);
    }
  }

  /** The scan of `Ext` passes the last three letters of "jpg" and stops at the dot. */
  lemma EndsWithJpg(path: string)
    requires |path| >= 4 && path[|path| - 4..] == ".jpg"
    ensures Ext(path) == ".jpg"
  {
    var n := |path|;
    var tail := path[n - 4..];
    assert tail[0] == '.' && tail[1] == 'j' && tail[2] == 'p' && tail[3] == 'g';
    assert path[n - 1] == 'g' && path[n - 2] == 'p' && path[n - 3] == 'j' && path[n - 4] == '.';
    assert ExtBefore(path, n) == ExtBefore(path, n - 1);
    assert ExtBefore(path, n - 1) == ExtBefore(path, n - 2);
    assert ExtBefore(path, n - 2) == ExtBefore(path, n - 3);
    assert ExtBefore(path, n - 3) == path[n - 4..];
  }

  /** The request: its URL path and its headers, by name ("" when absent; the
      canonical case folding of header names is not modelled). */
  datatype Request = Request(path: string, headers: map<string, string>)

  function Header(r: Request, name: string): string
  {
    if name in r.headers then r.headers[name] else ""
  }

  const PasswordHeader: string := "X-Capture-Server-PASSWORD"
  const QualityHeader: string := "X-Capture-Server-QUALITY"
  const FpsHeader: string := "X-Capture-Server-FPS"
  const WidthHeader: string := "X-Capture-Server-WIDTH"
  const HeightHeader: string := "X-Capture-Server-HEIGHT"

  /** The reply: status, headers, body and the capture command, if one was run. */
  datatype Response = Response(status: int, headers: map<string, string>, body: string, command: Option<Command>)

  const ServerName: string := "Go (raspivid/raspistill)"

  /** `renderError`: plain text, the status, the message and a newline. */
  function RenderError(headers: map<string, string>, code: int, message: string, command: Option<Command>): Response
  {
    Response(code, headers["Content-Type" := "text/plain"], message + "\n", command)
  }

  /** `getRaspividCommand`. */
  function RaspividCommand(width: int, height: int, fps: int): Command
  {
    Command("raspivid", RaspividArgs(IntToString(width), IntToString(height), IntToString(fps)))
  }

  /** The arguments of `getRaspividCommand`, around the printed width, height and rate. */
  function RaspividArgs(w: string, h: string, f: string): seq<string>
  {
    ["--nopreview", "--width", w, "--height", h, "--vflip", "--hflip",
     "--timeout", "0", "--framerate", f, "--vstab", "-o", "-"]
  }

  /** `getRaspistillCommand`. */
  function RaspistillCommand(width: int, height: int, quality: int): Command
  {
    Command("raspistill", RaspistillArgs(IntToString(width), IntToString(height), IntToString(quality)))
  }

  function RaspistillArgs(w: string, h: string, q: string): seq<string>
  {
    ["--nopreview", "--width", w, "--height", h, "--vflip", "--hflip", "--quality", q, "-o", "-"]
  }

  /** The handler's lists hold the same arguments as the process builders of
      camera/process.go, in another order (camera/server.go:17-37). */
  lemma CommandsAgree(width: int, height: int, fps: int, quality: int)
    ensures multiset(RaspividCommand(width, height, fps).args) == multiset(NewVideoProcess(width, height, fps).args)
    ensures multiset(RaspistillCommand(width, height, quality).args) == multiset(NewPictureProcess(width, height, quality).args)
    ensures RaspividCommand(width, height, fps).path == NewVideoProcess(width, height, fps).path
    ensures RaspistillCommand(width, height, quality).path == NewPictureProcess(width, height, quality).path
  {
    SameVideoArguments(IntToString(width), IntToString(height), IntToString(fps));
    SamePictureArguments(IntToString(width), IntToString(height), IntToString(quality));
  }

  /** Moving the first, third and fifth of five pieces behind the other two keeps
      the multiset. */
  lemma Reorder<T>(a: seq<T>, b: seq<T>, c: seq<T>, d: seq<T>, e: seq<T>)
    ensures multiset(a + b + c + d + e) == multiset(b + d + (a + c + e))
  {
  }

  /** The reordering of `CommandsAgree`, for any printed values. */
  lemma SameVideoArguments(w: string, h: string, f: string)
    ensures multiset(RaspividArgs(w, h, f))
         == multiset(["--width", w, "--height", h, "--timeout", "0", "--framerate", f, "--vstab"] + CameraArgs)
  {
    var first, size, flip := ["--nopreview"], ["--width", w, "--height", h], ["--vflip", "--hflip"];
    var video, out := ["--timeout", "0", "--framerate", f, "--vstab"], ["-o", "-"];
    assert RaspividArgs(w, h, f) == first + size + flip + video + out;
    assert CameraArgs == first + flip + out;
    assert size + video == ["--width", w, "--height", h, "--timeout", "0", "--framerate", f, "--vstab"];
    Reorder(first, size, flip, video, out);
  }

  lemma SamePictureArguments(w: string, h: string, q: string)
    ensures multiset(RaspistillArgs(w, h, q))
         == multiset(["--width", w, "--height", h, "--quality", q] + CameraArgs)
  {
    var first, size, flip := ["--nopreview"], ["--width", w, "--height", h], ["--vflip", "--hflip"];
    var quality, out := ["--quality", q], ["-o", "-"];
    assert RaspistillArgs(w, h, q) == first + size + flip + quality + out;
    assert CameraArgs == first + flip + out;
    assert size + quality == ["--width", w, "--height", h, "--quality", q];
    Reorder(first, size, flip, quality, out);
  }

  /** `getIntHeader`: an empty header leaves the value; otherwise the value becomes
      what `Atoi` returned, and a parse error is returned to be rendered as 400
      (camera/server.go:50-61). */
  method GetIntHeader(r: Request, header: string, intValue: int) returns (value: int, err: Option<Error>)
    ensures Header(r, header) == "" ==> value == intValue && err.None?
    ensures Header(r, header) != "" ==> Parsed(value, err) == Atoi(Header(r, header))
  {
    var v := Header(r, header);
    if v == "" {
      return intValue, None;
    }
    var p := Atoi(v);
    value, err := p.value, p.err;
  }

  /** The resolved capture settings. */
  datatype Settings = Settings(width: int, height: int, fps: int, quality: int)

  /** A header that is present and does not parse. */
  predicate Malformed(r: Request, name: string)
  {
    Header(r, name) != "" && Atoi(Header(r, name)).err.Some?
  }

  /** A setting: the header's number when given, else the default. */
  function Setting(r: Request, name: string, default: int): int
  {
    if Header(r, name) == "" then default else Atoi(Header(r, name)).value
  }

  /** The settings, stated without the order of the steps: each header wins over its
      default; the frame rate defaults to 0 for a ".jpg" path and to 20 otherwise;
      the size defaults to 640x480 for video and to 2592x1944 for a picture; the
      first malformed header among quality, frame rate, width and height is the
      error. */
  function Resolve(r: Request): Result<Settings, Error>
  {
    if Malformed(r, QualityHeader) then Err(Atoi(Header(r, QualityHeader)).err.value)
    else if Malformed(r, FpsHeader) then Err(Atoi(Header(r, FpsHeader)).err.value)
    else if Malformed(r, WidthHeader) then Err(Atoi(Header(r, WidthHeader)).err.value)
    else if Malformed(r, HeightHeader) then Err(Atoi(Header(r, HeightHeader)).err.value)
    else
      var fps := Setting(r, FpsHeader, if Ext(r.path) == ".jpg" then 0 else 20);
      Ok(Settings(Setting(r, WidthHeader, if fps > 0 then 640 else 2592),
                  Setting(r, HeightHeader, if fps > 0 then 480 else 1944),
                  fps, Setting(r, QualityHeader, 80)))
  }

  /** The command for resolved settings: video for a positive frame rate. */
  function CaptureCommand(s: Settings): Command
  {
    if s.fps > 0 then RaspividCommand(s.width, s.height, s.fps) else RaspistillCommand(s.width, s.height, s.quality)
  }

  /** What the handler replies. */
  function Reply(validate: string -> Option<Error>, r: Request, run: Command -> Option<Error>): Response
  {
    if validate(Header(r, PasswordHeader)).Some? then RenderError(map[], 403, "403 Forbidden", None)
    else if Resolve(r).Err? then RenderError(map[], 400, Resolve(r).error.message, None)
    else
      var s := Resolve(r).value;
      var command := CaptureCommand(s);
      var headers := map["Server" := ServerName, "Content-Type" := if s.fps > 0 then "video/h264" else "image/jpeg"];
      if run(command).Some? then RenderError(headers, 500, run(command).value.message, Some(command))
      else Response(200, headers, "", Some(command))
  }

  /** `Handler`, step by step as the source: the password, the defaults, the ".jpg"
      frame rate, quality and frame rate headers, the video size, width and height
      headers, then the command (camera/server.go:64-116). */
  method Handler(validate: string -> Option<Error>, r: Request, run: Command -> Option<Error>) returns (resp: Response)
    ensures resp == Reply(validate, r, run)
  {
    if validate(Header(r, PasswordHeader)).Some? {
      return RenderError(map[], 403, "403 Forbidden", None);
    }
    var settings := ReadSettings(r);
    if settings.Err? {
      return RenderError(map[], 400, settings.error.message, None);
    }
    var width, height, fps, quality := settings.value.width, settings.value.height, settings.value.fps, settings.value.quality;
    var headers := map["Server" := ServerName];
    var command;
    if fps > 0 {
      headers := headers["Content-Type" := "video/h264"];
      command := RaspividCommand(width, height, fps);
    } else {
      headers := headers["Content-Type" := "image/jpeg"];
      command := RaspistillCommand(width, height, quality);
    }
    var e := run(command);
    if e.Some? {
      return RenderError(headers, 500, e.value.message, Some(command));
    }
    return Response(200, headers, "", Some(command));
  }

  /** The settings part of `Handler`: the defaults, the ".jpg" frame rate, quality
      and frame rate headers, the video size, width and height headers
      (camera/server.go:72-96). */
  method ReadSettings(r: Request) returns (settings: Result<Settings, Error>)
    ensures settings == Resolve(r)
  {
    var width, height, fps, quality := 2592, 1944, 20, 80;
    if Ext(r.path) == ".jpg" {
      fps := 0;
    }
    var err;
    quality, err := GetIntHeader(r, QualityHeader, quality);
    if err.Some? {
      return Err(err.value);
    }
    fps, err := GetIntHeader(r, FpsHeader, fps);
    if err.Some? {
      return Err(err.value);
    }
    if fps > 0 {
      width, height := 640, 480;
    }
    width, err := GetIntHeader(r, WidthHeader, width);
    if err.Some? {
      return Err(err.value);
    }
    height, err := GetIntHeader(r, HeightHeader, height);
    if err.Some? {
      return Err(err.value);
    }
    return Ok(Settings(width, height, fps, quality));
  }

  /** A wrong password is answered with 403 and nothing else happens; every other
      reply comes after the password was accepted (camera/server.go:67-70). */
  lemma ForbiddenExactly(validate: string -> Option<Error>, r: Request, run: Command -> Option<Error>)
    ensures var resp := Reply(validate, r, run);
      (resp.status == 403 <==> validate(Header(r, PasswordHeader)).Some?)
      && (resp.status == 403 ==> resp.command.None? && resp.body == "403 Forbidden\n")
  {
  }

  /** A malformed header is answered with 400 and its parse error, without a capture
      (camera/server.go:56-58, 81-98). */
  lemma BadHeaderRejected(validate: string -> Option<Error>, r: Request, run: Command -> Option<Error>)
    requires validate(Header(r, PasswordHeader)).None?
    ensures var resp := Reply(validate, r, run);
      (resp.status == 400 <==> Resolve(r).Err?)
      && (resp.status == 400 ==> resp.command.None? && resp.body == Resolve(r).error.message + "\n")
  {
  }

  /** Without headers a ".jpg" path captures a full-size picture of quality 80, and any
      other path a 640x480 video at 20 frames per second (camera/server.go:72-91). */
  lemma Defaults(path: string)
    ensures var r := Request(path, map[]);
      Resolve(r) == Ok(if Ext(path) == ".jpg" then Settings(2592, 1944, 0, 80) else Settings(640, 480, 20, 80))
  {
  }

  /** The size headers are applied after the video default, so a given width or
      height wins for video as for pictures (camera/server.go:88-98). */
  lemma SizeHeadersWin(r: Request)
    requires Resolve(r).Ok?
    ensures Header(r, WidthHeader) != "" ==> Resolve(r).value.width == Atoi(Header(r, WidthHeader)).value
    ensures Header(r, HeightHeader) != "" ==> Resolve(r).value.height == Atoi(Header(r, HeightHeader)).value
    ensures Header(r, FpsHeader) != "" ==> Resolve(r).value.fps == Atoi(Header(r, FpsHeader)).value
  {
  }

  /** All resolved settings are 64-bit numbers. */
  lemma SettingsInRange(r: Request)
    requires Resolve(r).Ok?
    ensures var s := Resolve(r).value;
      && MinInt <= s.width <= MaxInt && MinInt <= s.height <= MaxInt
      && MinInt <= s.fps <= MaxInt && MinInt <= s.quality <= MaxInt
  {
  }

  /** A positive frame rate streams H.264 from `raspivid`, any other a JPEG from
      `raspistill` with the quality; and the arguments read back as the resolved
      settings (camera/server.go:100-109). */
  lemma CaptureChoice(validate: string -> Option<Error>, r: Request, run: Command -> Option<Error>)
    requires validate(Header(r, PasswordHeader)).None? && Resolve(r).Ok?
    ensures var resp := Reply(validate, r, run);
      var s := Resolve(r).value;
      && resp.command.Some?
      && (resp.command.value.path == "raspivid" <==> s.fps > 0)
      && resp.headers["Content-Type"] == (if run(resp.command.value).Some? then "text/plain"
                                          else if s.fps > 0 then "video/h264" else "image/jpeg")
      && (resp.status == 500 <==> run(resp.command.value).Some?)
      && (resp.status != 500 ==> resp.status == 200)
  {
  }

  /** The width, height and frame rate in a video command, or the width, height and
      quality in a picture command, parse back to the resolved settings. */
  lemma CommandCarriesSettings(s: Settings)
    requires MinInt <= s.width <= MaxInt && MinInt <= s.height <= MaxInt
    requires MinInt <= s.fps <= MaxInt && MinInt <= s.quality <= MaxInt
    ensures var a := CaptureCommand(s).args;
      && |a| >= 11 && a[1] == "--width" && Atoi(a[2]) == Parsed(s.width, None)
      && a[3] == "--height" && Atoi(a[4]) == Parsed(s.height, None)
      && (s.fps > 0 ==> a[9] == "--framerate" && Atoi(a[10]) == Parsed(s.fps, None))
      && (s.fps <= 0 ==> a[7] == "--quality" && Atoi(a[8]) == Parsed(s.quality, None))
  {
    if s.fps > 0 {
      VideoCarries(s.width, s.height, s.fps);
    } else {
      PictureCarries(s.width, s.height, s.quality);
    }
  }

  lemma VideoCarries(width: int, height: int, fps: int)
    requires MinInt <= width <= MaxInt && MinInt <= height <= MaxInt && MinInt <= fps <= MaxInt
    ensures var a := RaspividCommand(width, height, fps).args;
      && |a| >= 11 && a[1] == "--width" && Atoi(a[2]) == Parsed(width, None)
      && a[3] == "--height" && Atoi(a[4]) == Parsed(height, None)
      && a[9] == "--framerate" && Atoi(a[10]) == Parsed(fps, None)
  {
    var w, h, f := IntToString(width), IntToString(height), IntToString(fps);
    VideoPositions(w, h, f);
    AtoiItoa(width);
    AtoiItoa(height);
    AtoiItoa(fps);
  }

  lemma PictureCarries(width: int, height: int, quality: int)
    requires MinInt <= width <= MaxInt && MinInt <= height <= MaxInt && MinInt <= quality <= MaxInt
    ensures var a := RaspistillCommand(width, height, quality).args;
      && |a| >= 11 && a[1] == "--width" && Atoi(a[2]) == Parsed(width, None)
      && a[3] == "--height" && Atoi(a[4]) == Parsed(height, None)
      && a[7] == "--quality" && Atoi(a[8]) == Parsed(quality, None)
  {
    var w, h, q := IntToString(width), IntToString(height), IntToString(quality);
    PicturePositions(w, h, q);
    AtoiItoa(width);
    AtoiItoa(height);
    AtoiItoa(quality);
  }

  /** Where the printed values sit in the two lists. */
  lemma VideoPositions(w: string, h: string, f: string)
    ensures var a := RaspividArgs(w, h, f);
      && |a| == 14 && a[1] == "--width" && a[2] == w && a[3] == "--height" && a[4] == h
      && a[9] == "--framerate" && a[10] == f
  {
  }

  lemma PicturePositions(w: string, h: string, q: string)
    ensures var a := RaspistillArgs(w, h, q);
      && |a| == 11 && a[1] == "--width" && a[2] == w && a[3] == "--height" && a[4] == h
      && a[7] == "--quality" && a[8] == q
  {
  }
}
