/** Logger options (package `pkg/mlog`, file options.go): the defaults and the
    validation of the level and the output format. The zap level parser is a parameter
    `levelOk`, true exactly when `zapcore.Level.UnmarshalText` accepts the text. */
module MLog {

  const ConsoleFormat := "console"
  const JsonFormat := "json"

  /** The logger configuration (`Options`). */
  datatype Options = Options(
    outputPaths: seq<string>,
    level: string,
    format: string,
    disableCaller: bool,
    disableStacktrace: bool,
    enableColor: bool,
    development: bool,
    name: string)

  /** The errors `Validate` reports. */
  datatype LogError =
    | UnrecognizedLevel(text: string)   // from the level parser: unrecognized level: "<text>"
    | InvalidFormat(format: string)     // not a valid log format: "<format>"

  /** `NewOptions`: level "info", JSON output to stdout, every switch off. */
  function NewOptions(): (o: Options)
    ensures o.level == "info" && o.format == JsonFormat
    ensures o.outputPaths == ["stdout"] && o.name == ""
    ensures !o.disableCaller && !o.disableStacktrace && !o.enableColor && !o.development
  {
    Options(["stdout"], "info", JsonFormat, false, false, false, false, "")
  }

  predicate IsAsciiUpper(c: char) {
    'A' <= c <= 'Z'
  }

  function AsciiLower(c: char): char {
    if IsAsciiUpper(c) then (c as int + 32) as char else c
  }

  /** `strings.ToLower`, on ASCII letters. */
  function ToLower(s: string): string {
    seq(|s|, i requires 0 <= i < |s| => AsciiLower(s[i]))
  }

  /** The format check: the lower-cased format is "console" or "json". */
  predicate FormatAccepted(format: string) {
    var f := ToLower(format);
    f == ConsoleFormat || f == JsonFormat
  }

  /** a spells the lower-case word w, each letter in either case. */
  predicate EqualFold(a: string, w: string) {
    |a| == |w| &&
    forall i :: 0 <= i < |a| ==> a[i] == w[i] || (IsAsciiUpper(a[i]) && a[i] as int + 32 == w[i] as int)
  }

  /** Lower-casing gives word w exactly when the text spells w in any mix of cases. */
  lemma ToLowerEqualFold(a: string, w: string)
    requires forall i :: 0 <= i < |w| ==> !IsAsciiUpper(w[i])
    ensures ToLower(a) == w <==> EqualFold(a, w)
  {
    if EqualFold(a, w) {
      forall i | 0 <= i < |a| ensures ToLower(a)[i] == w[i] {
        if a[i] != w[i] {
          assert IsAsciiUpper(a[i]) && a[i] as int + 32 == w[i] as int;
        } else {
          assert !IsAsciiUpper(w[i]);
        }
      }
    }
    if ToLower(a) == w {
      forall i | 0 <= i < |a|
        ensures a[i] == w[i] || (IsAsciiUpper(a[i]) && a[i] as int + 32 == w[i] as int)
      {
        assert ToLower(a)[i] == AsciiLower(a[i]);
      }
    }
  }

  /** The format check is case-insensitive: it accepts exactly the spellings of
      "console" and "json" in any mix of cases. */
  lemma FormatAcceptedIff(format: string)
    ensures FormatAccepted(format) <==> EqualFold(format, ConsoleFormat) || EqualFold(format, JsonFormat)
  {
    ToLowerEqualFold(format, ConsoleFormat);
    ToLowerEqualFold(format, JsonFormat);
  }

  /** The default options pass the format check. */
  lemma DefaultFormatAccepted()
    ensures FormatAccepted(NewOptions().format)
  {
    FormatAcceptedIff(NewOptions().format);
    assert EqualFold(JsonFormat, JsonFormat);
  }

  /** `Options.Validate`: collects the level error, then the format error. It reads
      the options only. */
  method Validate(o: Options, levelOk: string -> bool) returns (errs: seq<LogError>)
    ensures |errs| <= 2
    ensures errs == [] <==> levelOk(o.level) && FormatAccepted(o.format)
    ensures !levelOk(o.level) ==> errs[0] == UnrecognizedLevel(o.level)
    ensures !FormatAccepted(o.format) ==> errs[|errs| - 1] == InvalidFormat(o.format)
    ensures errs == (if levelOk(o.level) then [] else [UnrecognizedLevel(o.level)]) +
                    (if FormatAccepted(o.format) then [] else [InvalidFormat(o.format)])
  {
    errs := [];
    if !levelOk(o.level) {
      errs := errs + [UnrecognizedLevel(o.level)];
    }
    var format := ToLower(o.format);
    if format != ConsoleFormat && format != JsonFormat {
      errs := errs + [InvalidFormat(o.format)];
    }
  }
}
