/** The log-line formatting of the uploadthing server logger: colouring a
    prefix by level, cleaning up stack traces, turning the logged arguments
    into strings, prefixing every printed line, and the two tables that
    translate between Effect log levels and consola log types. */
module Logger {
  import opened Wrappers
  import opened Text

  /** consola's log types. */
  datatype LogType =
    | Silent | Fatal | Error | Warn | Log | Info | Success
    | Fail | Ready | Start | Box | Debug | Trace | Verbose

  /** Effect's log levels (the `_tag` of an Effect `LogLevel`). */
  datatype EffectLogLevel =
    | LevelAll | LevelFatal | LevelError | LevelWarning
    | LevelInfo | LevelDebug | LevelTrace | LevelNone

  /** The levels a user may pass to the public setter. */
  predicate IsPublicLevel(t: LogType) {
    t in {Error, Warn, Info, Debug, Trace}
  }

  // ---------------------------------------------------------------------
  // Colours

  /** The escape character. */
  const Esc: char := '\U{1B}'

  /** The ANSI select-graphic-rendition sequence `ESC[<code>m`. */
  function Sgr(code: string): string {
    [Esc] + "[" + code + "m"
  }

  /** `str` on the background colour `bg`, in black, then reset. */
  function Paint(bg: string, str: string): string {
    Sgr(bg) + Sgr("30") + str + Sgr("0")
  }

  /** The log types `colorize` gives a colour. */
  predicate IsColored(level: LogType) {
    level in {Error, Fatal, Warn, Info, Log, Debug, Trace, Success}
  }

  /** `colorize`: a coloured level wraps `str` in a 10-character opening
      (background, then black foreground) and a 4-character reset, so the
      original string sits untouched in the middle; any other level leaves
      `str` as it is. */
  function Colorize(str: string, level: LogType): (r: string)
    ensures IsColored(level) ==> |r| == |str| + 14 && r[10..|r| - 4] == str
    ensures IsColored(level) ==> r[..3] == [Esc] + "[4" && r[4] == 'm' && r[5..10] == Sgr("30")
    ensures IsColored(level) ==> r[|r| - 4..] == Sgr("0")
    ensures !IsColored(level) ==> r == str
  {
    match level
    case Error => Paint("41", str)
    case Fatal => Paint("41", str)
    case Warn => Paint("43", str)
    case Info => Paint("44", str)
    case Log => Paint("44", str)
    case Debug => Paint("47", str)
    case Trace => Paint("47", str)
    case Success => Paint("42", str)
    case _ => str
  }

  /** Error and fatal share one colour, info and log share one, debug and
      trace share one. */
  lemma ColorizeSharedCodes(str: string)
    ensures Colorize(str, Error) == Colorize(str, Fatal)
    ensures Colorize(str, Info) == Colorize(str, Log)
    ensures Colorize(str, Debug) == Colorize(str, Trace)
  {
  }

  /** The levels error, warn, info, debug and success have colours of
      their own. */
  lemma ColorizeDistinguishes(str: string, a: LogType, b: LogType)
    requires a in {Error, Warn, Info, Debug, Success} && b in {Error, Warn, Info, Debug, Success}
    requires a != b
    ensures Colorize(str, a) != Colorize(str, b)
  {
    ColorizeDigit(str, a);
    ColorizeDigit(str, b);
  }

  /** The digit that picks a coloured level's background. */
  function BackgroundDigit(level: LogType): char {
    match level
    case Error => '1'
    case Fatal => '1'
    case Warn => '3'
    case Info => '4'
    case Log => '4'
    case Debug => '7'
    case Trace => '7'
    case Success => '2'
    case _ => ' '
  }

  /** A coloured level's output carries its background digit at index 3. */
  lemma ColorizeDigit(str: string, level: LogType)
    requires IsColored(level)
    ensures Colorize(str, level)[3] == BackgroundDigit(level)
  {
  }

  /** Colouring adds no newline. */
  lemma ColorizeAddsNoNewline(str: string, level: LogType)
    requires '\n' !in str
    ensures '\n' !in Colorize(str, level)
  {
    var r := Colorize(str, level);
    if IsColored(level) {
      assert r == r[..5] + r[5..10] + str + r[|r| - 4..];
    }
  }

  /** The `icons` table; a type it lacks has no icon. Its keys are exactly
      the types `colorize` gives a colour; error and fatal share an icon,
      and so do info and log (debug and trace, which share a colour, do
      not). */
  function Icon(level: LogType): (r: Option<string>)
    ensures r.Some? <==> IsColored(level)
    ensures level in {Error, Fatal} ==> r == Some("\U{2A2F}")
    ensures level in {Info, Log} ==> r == Some("\U{2139}")
  {
    match level
    case Fatal => Some("\U{2A2F}")
    case Error => Some("\U{2A2F}")
    case Warn => Some("\U{26A0}\U{FE0F}")
    case Info => Some("\U{2139}")
    case Log => Some("\U{2139}")
    case Debug => Some("\U{2699}")
    case Trace => Some("\U{2192}")
    case Success => Some("\U{2713}")
    case _ => None
  }

  /** The icon as a template literal prints it: a missing one reads
      `undefined`. */
  function IconText(level: LogType): (r: string)
    ensures '\n' !in r
    ensures Icon(level).None? ==> r == "undefined"
  {
    Icon(level).GetOr("undefined")
  }

  /** The tag this logger is created with (`defaults.tag`); consola puts
      it on every log object that does not bring a tag of its own. */
  const DefaultTag: string := "UPLOADTHING"

  /** The reporter's coloured prefix ` <icon> <tag> <time> `. The clock
      reading `time` is the `toLocaleTimeString()` of the log date. Built
      from a tag and a time without newlines it has none; a type without a
      colour has no icon either, so its prefix is plain and reads
      `undefined` where the icon would be. */
  function LogPrefix(level: LogType, tag: string, time: string): (r: string)
    ensures '\n' !in tag && '\n' !in time ==> '\n' !in r
    ensures !IsColored(level) ==> r == " undefined " + tag + " " + time + " "
  {
    var inner := " " + IconText(level) + " " + tag + " " + time + " ";
    if '\n' !in tag && '\n' !in time then
      assert '\n' !in inner;
      ColorizeAddsNoNewline(inner, level);
      Colorize(inner, level)
    else
      Colorize(inner, level)
  }

  // ---------------------------------------------------------------------
  // Stack traces

  /** The literal used when the process has no `cwd` function. */
  const UnknownCwd: string := "__UnknownCWD__"

  /** The working directory `formatStack` strips: `process.cwd()` when the
      process offers it (`processCwd` is its result), else the marker. */
  function ResolveCwd(processCwd: Option<string>): (cwd: string)
    ensures processCwd.None? ==> cwd == UnknownCwd
    ensures processCwd.Some? ==> cwd == processCwd.value
  {
    processCwd.GetOr(UnknownCwd)
  }

  /** One stack line as `formatStack` keeps it: trimmed, then the first
      `file://` removed, then the first `cwd + "/"` removed. It is no longer
      than the raw line and holds no character the raw line did not (in
      particular no newline). */
  function CleanLine(line: string, cwd: string): (r: string)
    ensures |r| <= |line|
    ensures forall c :: c in r ==> c in line
  {
    var t := Trim(line);
    RemoveFirst(RemoveFirst(t, "file://"), cwd + "/")
  }

  /** The cleaned lines. */
  function CleanLines(lines: seq<string>, cwd: string): (r: seq<string>)
    ensures |r| == |lines|
  {
    seq(|lines|, k requires 0 <= k < |lines| => CleanLine(lines[k], cwd))
  }

  /** `formatStack`: the stack split at newlines, its first line (the
      message) dropped, the rest cleaned, and all of it indented by two
      spaces. */
  function FormatStack(stack: string, processCwd: Option<string>): (r: string)
    ensures StartsWith(r, "  ")
  {
    "  " + Join(CleanLines(Split(stack, '\n')[1..], ResolveCwd(processCwd)), "\n  ")
  }

  /** Every string of `xs` with `p` in front of it. */
  function PrefixEach(p: string, xs: seq<string>): (r: seq<string>)
    ensures |r| == |xs|
  {
    seq(|xs|, k requires 0 <= k < |xs| => p + xs[k])
  }

  /** Indenting a join by the separator's tail is the join of the indented
      parts. */
  lemma {:induction false} IndentedJoin(xs: seq<string>)
    requires |xs| >= 1
    ensures "  " + Join(xs, "\n  ") == Join(PrefixEach("  ", xs), "\n")
    decreases |xs|
  {
    if |xs| > 1 {
      IndentedJoin(xs[1..]);
      assert PrefixEach("  ", xs)[1..] == PrefixEach("  ", xs[1..]);
      assert "  " + Join(xs, "\n  ") == ("  " + xs[0]) + "\n" + ("  " + Join(xs[1..], "\n  "));
    }
  }

  /** The lines `formatStack` produces, exactly: with a one-line stack a
      single line of two spaces; otherwise one line per stack line after
      the first, each the cleaned line indented by two spaces. So the output
      has one line fewer than the stack (and never fewer than one). */
  lemma FormatStackLines(stack: string, processCwd: Option<string>)
    ensures var kept := Split(stack, '\n')[1..];
            var out := Split(FormatStack(stack, processCwd), '\n');
            && StartsWith(FormatStack(stack, processCwd), "  ")
            && |out| == (if |kept| == 0 then 1 else |kept|)
            && (kept == [] ==> out == ["  "])
            && forall k :: 0 <= k < |kept| ==> out[k] == "  " + CleanLine(kept[k], ResolveCwd(processCwd))
  {
    var kept := Split(stack, '\n')[1..];
    var cleaned := CleanLines(kept, ResolveCwd(processCwd));
    var s := FormatStack(stack, processCwd);
    assert s[..2] == "  ";
    if kept == [] {
      assert s == "  ";
      SplitWithoutSeparator(s, '\n');
    } else {
      IndentedJoin(cleaned);
      var parts := PrefixEach("  ", cleaned);
      forall k | 0 <= k < |parts|
        ensures '\n' !in parts[k]
      {
        assert kept[k] == Split(stack, '\n')[k + 1];
        assert '\n' !in kept[k];
        assert '\n' !in cleaned[k];
        assert parts[k] == "  " + cleaned[k];
      }
      SplitJoin(parts, '\n');
    }
  }

  // ---------------------------------------------------------------------
  // Arguments

  /** A logged argument: a string; an object with a string `stack`
      (an error), whose `message` may be missing; or any other value, given
      by its `JSON.stringify(arg, null, 4)` text. */
  datatype Arg =
    | StringArg(s: string)
    | ErrorArg(message: Option<string>, stack: string)
    | OtherArg(json: string)

  /** The first pass of `formatArgs`: an error becomes its message, a
      newline and its formatted stack; a missing message reads `undefined`. */
  function ExpandError(a: Arg, processCwd: Option<string>): Arg {
    match a
    case ErrorArg(message, stack) =>
      StringArg(message.GetOr("undefined") + "\n" + FormatStack(stack, processCwd))
    case _ => a
  }

  /** The second pass of `formatArgs`: strings stay, everything else is
      its JSON text. */
  function Stringify(a: Arg): string {
    match a
    case StringArg(s) => s
    // Not reached: the first pass has already expanded every error.
    case ErrorArg(_, _) => "{}"
    case OtherArg(json) => json
  }

  /** `formatArgs`: one string per argument, in order; strings unchanged,
      errors expanded to message and formatted stack, other values as
      their JSON text. */
  function FormatArgs(args: seq<Arg>, processCwd: Option<string>): (r: seq<string>)
    ensures |r| == |args|
    ensures forall k :: 0 <= k < |args| && args[k].StringArg? ==> r[k] == args[k].s
    ensures forall k :: 0 <= k < |args| && args[k].OtherArg? ==> r[k] == args[k].json
    ensures forall k :: 0 <= k < |args| && args[k].ErrorArg? ==>
              r[k] == args[k].message.GetOr("undefined") + "\n" + FormatStack(args[k].stack, processCwd)
  {
    var expanded := seq(|args|, k requires 0 <= k < |args| => ExpandError(args[k], processCwd));
    seq(|expanded|, k requires 0 <= k < |expanded| => Stringify(expanded[k]))
  }

  // ---------------------------------------------------------------------
  // The reporter

  /** The reporter's text for one log object: the formatted arguments
      joined by spaces, split at newlines, each piece behind the prefix and
      a space, joined by newlines. */
  function ReporterLines(prefix: string, args: seq<Arg>, processCwd: Option<string>): (r: string)
    ensures StartsWith(r, prefix + " ")
  {
    var parts := PrefixEach(prefix + " ", Split(Join(FormatArgs(args, processCwd), " "), '\n'));
    assert StartsWith(parts[0], prefix + " ");
    Join(parts, "\n")
  }

  /** What the reporter prints for a log object of type `level` carrying
      `tag` (the default tag when it brings none): the output begins with
      the prefix for that level, tag and time. */
  function Report(level: LogType, tag: Option<string>, time: string, args: seq<Arg>, processCwd: Option<string>): (r: string)
    ensures StartsWith(r, LogPrefix(level, tag.GetOr(DefaultTag), time) + " ")
    ensures tag.None? ==> StartsWith(r, LogPrefix(level, "UPLOADTHING", time) + " ")
  {
    ReporterLines(LogPrefix(level, tag.GetOr(DefaultTag), time), args, processCwd)
  }

  /** Every printed line begins with the prefix and a space, and there are
      exactly as many lines as newline-separated pieces in the space-joined
      arguments; line `k` ends with piece `k`. */
  lemma {:induction false} ReportLines(level: LogType, tag: Option<string>, time: string, args: seq<Arg>, processCwd: Option<string>)
    requires '\n' !in tag.GetOr(DefaultTag) && '\n' !in time
    ensures var prefix := LogPrefix(level, tag.GetOr(DefaultTag), time);
            var pieces := Split(Join(FormatArgs(args, processCwd), " "), '\n');
            var lines := Split(Report(level, tag, time, args, processCwd), '\n');
            && |lines| == |pieces|
            && forall k :: 0 <= k < |lines| ==> lines[k] == prefix + " " + pieces[k]
  {
    var prefix := LogPrefix(level, tag.GetOr(DefaultTag), time);
    var pieces := Split(Join(FormatArgs(args, processCwd), " "), '\n');
    var parts := PrefixEach(prefix + " ", pieces);
    assert forall k :: 0 <= k < |parts| ==> parts[k] == prefix + " " + pieces[k];
    forall k | 0 <= k < |parts|
      ensures '\n' !in parts[k]
    {
      assert '\n' !in pieces[k];
    }
    SplitJoin(parts, '\n');
  }

  // ---------------------------------------------------------------------
  // Level tables

  /** `effectLoggerLevelToConsolaLevel`: Fatal and Error both become
      `error`, None becomes `silent`, All becomes `verbose`, and the other
      levels keep their name. */
  function ConsolaLevel(level: EffectLogLevel): (t: LogType)
    ensures t == Error <==> level == LevelFatal || level == LevelError
    ensures t == Silent <==> level == LevelNone
    ensures t == Verbose <==> level == LevelAll
    ensures t == Warn <==> level == LevelWarning
    ensures t == Info <==> level == LevelInfo
    ensures t == Debug <==> level == LevelDebug
    ensures t == Trace <==> level == LevelTrace
  {
    match level
    case LevelAll => Verbose
    case LevelFatal => Error
    case LevelError => Error
    case LevelInfo => Info
    case LevelDebug => Debug
    case LevelTrace => Trace
    case LevelWarning => Warn
    case LevelNone => Silent
  }

  /** The table `withMinimalLogLevel` indexes (keyed by consola type
      names), defaulting to `info`; a type it has no key for looks up
      `undefined`. The table is the inverse of `ConsolaLevel` on its keys:
      mapping the Effect level back gives the key again, and `error`, the
      one key with two preimages, selects Effect's Error rather than
      Fatal. */
  function MinimumLogLevel(level: Option<LogType>): (r: Option<EffectLogLevel>)
    ensures level.None? ==> r == Some(LevelInfo)
    ensures level.Some? && IsPublicLevel(level.value) ==> r.Some?
    ensures level.Some? ==> (r.Some? <==> level.value in {Silent, Error, Warn, Info, Debug, Trace, Verbose})
    ensures level.Some? && r.Some? ==> ConsolaLevel(r.value) == level.value
    ensures level == Some(Error) ==> r == Some(LevelError)
  {
    match level.GetOr(Info)
    case Silent => Some(LevelNone)
    case Error => Some(LevelError)
    case Warn => Some(LevelWarning)
    case Info => Some(LevelInfo)
    case Debug => Some(LevelDebug)
    case Trace => Some(LevelTrace)
    case Verbose => Some(LevelAll)
    case _ => None
  }

  /** Distinct levels select distinct Effect levels. */
  lemma MinimumLogLevelInjective(a: LogType, b: LogType)
    requires MinimumLogLevel(Some(a)).Some? && MinimumLogLevel(Some(b)).Some?
    requires a != b
    ensures MinimumLogLevel(Some(a)) != MinimumLogLevel(Some(b))
  {
    assert ConsolaLevel(MinimumLogLevel(Some(a)).value) == a;
    assert ConsolaLevel(MinimumLogLevel(Some(b)).value) == b;
  }
}
