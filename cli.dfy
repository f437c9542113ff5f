/**
 * The command line of the scraper framework (`main` in `src/main.py`): the
 * default input and output paths, and the output suffix a `--format` forces.
 *
 * Argument parsing, logging and the GST run itself are inputs: the parsed
 * arguments are a value, and whether the plugin raised is a flag.
 */
module Cli {
  import opened Wrappers
  import opened Text
  import opened Paths
  import GstPlugin

  /** `--format`: `csv` or `excel`. */
  datatype Format = Csv | Excel

  /** The parsed arguments; the only plugin argparse accepts is `gst`. */
  datatype Args = Args(input: Option<string>, output: Option<string>, format: Option<Format>)

  const DefaultInput: string := "data/gst_details.csv"
  const DefaultOutput: string := "data/output/gst_dump.csv"

  /** `value or default`: an absent or empty argument gives the default. */
  function OrDefault(arg: Option<string>, default: string): (r: string)
    ensures r == default || (arg.Some? && r == arg.value)
    ensures arg.Some? && arg.value != [] ==> r == arg.value
  {
    if arg.None? || arg.value == [] then default else arg.value
  }

  /** The output suffix a format accepts, compared in lower case. */
  predicate Matches(format: Format, ext: string) {
    match format
    case Excel => ext == ".xlsx" || ext == ".xls"
    case Csv => ext == ".csv"
  }

  /** The suffix `with_suffix` puts on an output path of the wrong kind. */
  function Forced(format: Format): string {
    match format
    case Excel => ".xlsx"
    case Csv => ".csv"
  }

  /**
   * The output path after the `--format` override; `None` where
   * `with_suffix` raises, which `main` turns into exit status 1.
   */
  function OutputFile(path: string, format: Option<Format>): Option<string> {
    if format.None? || Matches(format.value, GstPlugin.Extension(path)) then Some(path)
    else WithSuffix(path, Forced(format.value))
  }

  /** The input and output files `main` hands to the GST plugin, or `None` when it fails first. */
  function Files(args: Args): Option<(string, string)> {
    match OutputFile(OrDefault(args.output, DefaultOutput), args.format)
    case None => None
    case Some(out) => Some((OrDefault(args.input, DefaultInput), out))
  }

  /** `main`'s exit status: 1 when any step raises, the plugin's own run included; 0 otherwise. */
  function ExitStatus(args: Args, pluginRaises: bool): int {
    if Files(args).None? || pluginRaises then 1 else 0
  }

  /**
   * Without `--input` or `--output` the defaults are used; a non-empty
   * argument is used as given.
   */
  lemma {:induction false} FilesDefaults(args: Args)
    requires args.format.None?
    ensures Files(args).Some?
    ensures args.input.None? ==> Files(args).value.0 == DefaultInput
    ensures args.output.None? ==> Files(args).value.1 == DefaultOutput
    ensures args.input.Some? && args.input.value != [] ==> Files(args).value.0 == args.input.value
    ensures args.output.Some? && args.output.value != [] ==> Files(args).value.1 == args.output.value
  {
  }

  /**
   * With a format, the output path ends in a suffix of that format. It is
   * left as given exactly when its suffix, in lower case, already matches;
   * otherwise only its last suffix changes, and it fails only for a path
   * with an empty name.
   */
  lemma {:induction false} OutputFileSpec(path: string, format: Format)
    ensures Matches(format, GstPlugin.Extension(path)) <==> OutputFile(path, Some(format)) == Some(path)
    ensures OutputFile(path, Some(format)).None? <==> !Matches(format, GstPlugin.Extension(path)) && Name(path) == []
    ensures OutputFile(path, Some(format)).Some? ==> Matches(format, GstPlugin.Extension(OutputFile(path, Some(format)).value))
    ensures !Matches(format, GstPlugin.Extension(path)) && Name(path) != [] ==>
      var q := OutputFile(path, Some(format)).value;
      && Suffix(q) == Forced(format)
      && q[..|path| - |Name(path)|] == path[..|path| - |Name(path)|]
  {
    if !Matches(format, GstPlugin.Extension(path)) && Name(path) != [] {
      var q := WithSuffix(path, Forced(format)).value;
      ForcedValid(format);
      WithSuffixSpec(path, Forced(format));
      ForcedMatches(format, q);
    }
  }

  /** Without a format the output path is never touched. */
  lemma {:induction false} NoFormatUnchanged(path: string)
    ensures OutputFile(path, None) == Some(path)
  {
  }

  /** Forcing the format a second time changes nothing. */
  lemma {:induction false} OutputFileIdempotent(path: string, format: Option<Format>)
    requires OutputFile(path, format).Some?
    ensures OutputFile(OutputFile(path, format).value, format) == OutputFile(path, format)
  {
    if format.Some? {
      OutputFileSpec(path, format.value);
      OutputFileSpec(OutputFile(path, format).value, format.value);
    }
  }

  /** `main` succeeds exactly when the output path can be formed and the plugin does not raise. */
  lemma {:induction false} ExitStatusSpec(args: Args, pluginRaises: bool)
    ensures ExitStatus(args, pluginRaises) == 0 <==> Files(args).Some? && !pluginRaises
    ensures ExitStatus(args, pluginRaises) in {0, 1}
  {
  }

  lemma {:induction false} ForcedValid(format: Format)
    ensures ValidSuffix(Forced(format))
  {
    assert Forced(format)[1..] == (if format == Excel then "xlsx" else "csv");
  }

  /** A path whose suffix was forced has the suffix of its format. */
  lemma {:induction false} ForcedMatches(format: Format, q: string)
    requires Suffix(q) == Forced(format)
    ensures Matches(format, GstPlugin.Extension(q))
  {
    ForcedLower(format);
  }

  lemma {:induction false} ForcedLower(format: Format)
    ensures LowerStr(Forced(format)) == Forced(format)
  {
    var e := Forced(format);
    assert forall i :: 0 <= i < |e| ==> !IsUpper(e[i]) by {
      if format == Excel {
        assert e == ".xlsx" && !IsUpper(e[0]) && !IsUpper(e[1]) && !IsUpper(e[2]) && !IsUpper(e[3]) && !IsUpper(e[4]);
      } else {
        assert e == ".csv" && !IsUpper(e[0]) && !IsUpper(e[1]) && !IsUpper(e[2]) && !IsUpper(e[3]);
      }
    }
    LowerStrFixed(e);
  }
}
