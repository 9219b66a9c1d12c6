/**
 * Command-line handling of the referee schedule script: `-m`/`--master-file`,
 * `-s`/`--town-file`, `-t`/`--town`, `-c`/`--conversion` and
 * `-o`/`--output-file` are all required; `-h` prints the usage line.
 */
module RefereeArguments {
  import opened Options
  import opened PyText
  import opened PyGetopt
  import opened Cells

  const Usage: string :=
    "USAGE: referee.py -m <master schedule file> -s <town schedule file> -t <town> -c <conversion file> -o <output file>"

  const ShortOpts: string := "hm:t:s:c:o:"

  /** The long-option table as the script declares it: 'output-file' lacks its '='. */
  const LongOptsAsWritten: seq<string> := ["master-file=", "town-file=", "town=", "conversion=", "output-file"]

  /** The long-option table with '--output-file' taking its argument, as the usage line says. */
  const LongOpts: seq<string> := ["master-file=", "town-file=", "town=", "conversion=", "output-file="]

  const MasterNames: set<string> := {"-m", "--master-file"}
  const TownFileNames: set<string> := {"-s", "--town-file"}
  const TownNames: set<string> := {"-t", "--town"}
  const ConversionNames: set<string> := {"-c", "--conversion"}
  const OutputNames: set<string> := {"-o", "--output-file"}

  /** The `arguments` dictionary; `None` is a key still unset. */
  datatype Arguments = Arguments(
    masterFile: Option<string>,
    townFile: Option<string>,
    town: Option<string>,
    outputFile: Option<string>,
    conversionFile: Option<string>)

  const NoArguments: Arguments := Arguments(None, None, None, None, None)

  function LowerOpt(o: Option<string>): (r: Option<string>)
    ensures r.Some? <==> o.Some?
    ensures r.Some? ==> r.value == Lower(o.value)
    ensures r.Some? ==> |r.value| == |o.value| && Lower(r.value) == r.value
  {
    if o.Some? then LowerIdempotent(o.value); Some(Lower(o.value)) else None
  }

  /**
   * What the option loop has stored after `opts`: for each key the argument
   * of the last option that sets it, the town lower-cased.
   */
  function Collected(opts: seq<Opt>): Arguments {
    Arguments(
      LastValue(opts, MasterNames),
      LastValue(opts, TownFileNames),
      LowerOpt(LastValue(opts, TownNames)),
      LastValue(opts, OutputNames),
      LastValue(opts, ConversionNames))
  }

  predicate Complete(a: Arguments) {
    a.masterFile.Some? && a.townFile.Some? && a.town.Some? && a.outputFile.Some? && a.conversionFile.Some?
  }

  /**
   * The option loop of `get_arguments`: it stores each option's argument
   * under its key and stops at the first '-h'.
   */
  method CollectOptions(opts: seq<Opt>) returns (help: bool, arguments: Arguments)
    ensures help <==> HelpIndex(opts) < |opts|
    ensures arguments == Collected(opts[..HelpIndex(opts)])
  {
    arguments := NoArguments;
    var i := 0;
    while i < |opts|
      invariant 0 <= i <= |opts|
      invariant forall j :: 0 <= j < i ==> opts[j].name != "-h"
      invariant arguments == Collected(opts[..i])
    {
      var o := opts[i];
      assert opts[..i + 1] == opts[..i] + [o];
      LastValueSnoc(opts[..i], o, MasterNames);
      LastValueSnoc(opts[..i], o, TownFileNames);
      LastValueSnoc(opts[..i], o, TownNames);
      LastValueSnoc(opts[..i], o, ConversionNames);
      LastValueSnoc(opts[..i], o, OutputNames);
      if o.name == "-h" {
        return true, arguments;
      } else if o.name in MasterNames {
        arguments := arguments.(masterFile := Some(o.arg));
      } else if o.name in TownFileNames {
        arguments := arguments.(townFile := Some(o.arg));
      } else if o.name in TownNames {
        arguments := arguments.(town := Some(Lower(o.arg)));
      } else if o.name in ConversionNames {
        arguments := arguments.(conversionFile := Some(o.arg));
      } else if o.name in OutputNames {
        arguments := arguments.(outputFile := Some(o.arg));
      }
      i := i + 1;
    }
    assert opts[..i] == opts;
    return false, arguments;
  }

  /**
   * The body of `get_arguments(args)` over the long-option table `longOpts`:
   * 77 and nothing set when `getopt` fails; 99 at the first '-h', with what
   * the options before it set; otherwise 0 exactly when every key is set,
   * and 99 when one is missing. Every non-zero code logs the usage line once.
   */
  method ParseArguments(args: seq<string>, longOpts: seq<string>) returns (rc: int, arguments: Arguments, log: seq<LogLine>)
    ensures match Getopt(args, ShortOpts, longOpts)
            case Failed(_) => rc == 77 && arguments == NoArguments && log == [LogError(Usage)]
            case Parsed(opts, _) =>
              var k := HelpIndex(opts);
              if k < |opts| then rc == 99 && arguments == Collected(opts[..k]) && log == [LogError(Usage)]
              else arguments == Collected(opts) && (rc == 0 <==> Complete(arguments)) &&
                   (rc == 0 || rc == 99) && log == (if rc == 0 then [] else [LogError(Usage)])
  {
    var parse := Getopt(args, ShortOpts, longOpts);
    if parse.Failed? {
      return 77, NoArguments, [LogError(Usage)];
    }
    var help;
    help, arguments := CollectOptions(parse.opts);
    if help {
      return 99, arguments, [LogError(Usage)];
    }
    assert parse.opts[..|parse.opts|] == parse.opts;
    if arguments.town.None? || arguments.townFile.None? || arguments.masterFile.None? ||
       arguments.conversionFile.None? || arguments.outputFile.None? {
      return 99, arguments, [LogError(Usage)];
    }
    return 0, arguments, [];
  }

  /** `get_arguments(args)` as the script runs it, with the declared long-option table. */
  method GetArguments(args: seq<string>) returns (rc: int, arguments: Arguments, log: seq<LogLine>)
    ensures match Getopt(args, ShortOpts, LongOptsAsWritten)
            case Failed(_) => rc == 77 && arguments == NoArguments && log == [LogError(Usage)]
            case Parsed(opts, _) =>
              var k := HelpIndex(opts);
              if k < |opts| then rc == 99 && arguments == Collected(opts[..k]) && log == [LogError(Usage)]
              else arguments == Collected(opts) && (rc == 0 <==> Complete(arguments)) &&
                   (rc == 0 || rc == 99) && log == (if rc == 0 then [] else [LogError(Usage)])
  {
    rc, arguments, log := ParseArguments(args, LongOptsAsWritten);
  }

  /** `get_arguments(args)` with '--output-file' taking its argument, as the usage line means. */
  method GetArgumentsCorrected(args: seq<string>) returns (rc: int, arguments: Arguments, log: seq<LogLine>)
    ensures match Getopt(args, ShortOpts, LongOpts)
            case Failed(_) => rc == 77 && arguments == NoArguments && log == [LogError(Usage)]
            case Parsed(opts, _) =>
              var k := HelpIndex(opts);
              if k < |opts| then rc == 99 && arguments == Collected(opts[..k]) && log == [LogError(Usage)]
              else arguments == Collected(opts) && (rc == 0 <==> Complete(arguments)) &&
                   (rc == 0 || rc == 99) && log == (if rc == 0 then [] else [LogError(Usage)])
  {
    rc, arguments, log := ParseArguments(args, LongOpts);
  }

  /** The stored town is always in lower case. */
  lemma CollectedTownLower(opts: seq<Opt>)
    ensures Collected(opts).town.Some? ==> Lower(Collected(opts).town.value) == Collected(opts).town.value
  {
    var t := LastValue(opts, TownNames);
    if t.Some? {
      LowerIdempotent(t.value);
    }
  }

  /** A repeated option overrides the earlier one. */
  lemma LaterOptionWins(opts: seq<Opt>, a: string, b: string)
    ensures Collected(opts + [Opt("-m", a), Opt("--master-file", b)]).masterFile == Some(b)
  {
    LastValueSnoc(opts + [Opt("-m", a)], Opt("--master-file", b), MasterNames);
    assert opts + [Opt("-m", a), Opt("--master-file", b)] == opts + [Opt("-m", a)] + [Opt("--master-file", b)];
  }

  /** '-h' is read as an option with no argument. */
  lemma HelpParses(args: seq<string>)
    requires args == ["-h"]
    ensures Getopt(args, ShortOpts, LongOptsAsWritten) == Parsed([Opt("-h", "")], [])
  {
    assert StartsWith(args[0], "-") && !StartsWith(args[0], "--") && args[0] != "-";
    assert args[0][1..] == "h";
    assert ShortHasArg('h', ShortOpts) == Some(false);
    assert DoShorts("h", ShortOpts, []) == Parsed([Opt("-h", "")], []) by {
      assert "h"[1..] == "";
    }
    GetoptShortStep(args, ShortOpts, LongOptsAsWritten);
  }

  /** '-n' is not an option of the script. */
  lemma UnknownOptionFails(args: seq<string>)
    requires args == ["-n"]
    ensures Getopt(args, ShortOpts, LongOptsAsWritten) == Failed(NotRecognized("n"))
  {
    assert args[0][1] == 'n';
    assert StartsWith(args[0], "-") && !StartsWith(args[0], "--") && args[0] != "-";
    assert args[0][1..] == "n";
    assert 'n' !in ShortOpts;
    assert DoShorts("n", ShortOpts, []) == Failed(NotRecognized("n"));
    GetoptShortStep(args, ShortOpts, LongOptsAsWritten);
  }

  lemma OutputFileEntryAsWritten()
    ensures '=' !in "output-file"
    ensures LongHasArgs("output-file", LongOptsAsWritten) == Found(false, "output-file")
  {
    assert "output-file" in LongOptsAsWritten;
  }

  lemma OutputFileEntry()
    ensures LongHasArgs("output-file", LongOpts) == Found(true, "output-file")
  {
    assert "output-file" !in LongOpts;
    assert "output-file" + "=" == LongOpts[4];
  }

  lemma OutputFileName()
    ensures "--" + "output-file" == "--output-file"
  {
  }

  lemma OutputFileWord(text: string)
    requires text == "--output-file=out"
    ensures StartsWith(text, "--") && text != "--"
    ensures text[2..] == "output-file" + "=" + "out"
  {
  }

  /** As declared, '--output-file=out' is refused: the table gives 'output-file' no argument. */
  lemma OutputFileAsWritten(args: seq<string>)
    requires args == ["--output-file=out"]
    ensures Getopt(args, ShortOpts, LongOptsAsWritten) == Failed(MustNotHaveArgument("output-file"))
  {
    OutputFileWord(args[0]);
    OutputFileEntryAsWritten();
    DoLongsValue("output-file", "out", LongOptsAsWritten, []);
    GetoptLongStep(args, ShortOpts, LongOptsAsWritten);
  }

  /** '-c value' before words whose parse fails: the whole parse fails the same way. */
  lemma ShortArgThenFails(opts: string, c: char, a: string, rest: seq<string>, e: GetoptError)
    requires c != '-' && ShortHasArg(c, opts) == Some(true)
    requires Getopt(rest, opts, LongOptsAsWritten) == Failed(e)
    ensures Getopt([['-', c], a] + rest, opts, LongOptsAsWritten) == Failed(e)
  {
    GetoptShortArg(c, a, rest, opts, LongOptsAsWritten);
    ContinueFailed([Opt(['-', c], a)], rest, e, opts, LongOptsAsWritten);
  }

  /** The four letters that take an argument, found by passing over the letters before them. */
  lemma ArgumentLetters(opts: string)
    requires opts == ShortOpts
    ensures ShortHasArg('m', opts) == Some(true) && ShortHasArg('s', opts) == Some(true)
    ensures ShortHasArg('t', opts) == Some(true) && ShortHasArg('c', opts) == Some(true)
  {
    assert opts[1..] == "m:t:s:c:o:" && opts[3..] == "t:s:c:o:" && opts[5..] == "s:c:o:" && opts[7..] == "c:o:";
    assert ShortHasArg('m', opts) == Some(true) by {
      ShortHasArgHit('m', opts[1..]);
      ShortHasArgSkip('m', opts);
    }
    assert ShortHasArg('t', opts) == Some(true) by {
      ShortHasArgHit('t', opts[3..]);
      assert opts[2..][1..] == opts[3..];
      ShortHasArgSkip('t', opts[2..]);
      assert opts[1..][1..] == opts[2..];
      ShortHasArgSkip('t', opts[1..]);
      ShortHasArgSkip('t', opts);
    }
    assert ShortHasArg('s', opts) == Some(true) by {
      ShortHasArgHit('s', opts[5..]);
      assert opts[4..][1..] == opts[5..];
      ShortHasArgSkip('s', opts[4..]);
      assert opts[3..][1..] == opts[4..];
      ShortHasArgSkip('s', opts[3..]);
      assert opts[2..][1..] == opts[3..];
      ShortHasArgSkip('s', opts[2..]);
      assert opts[1..][1..] == opts[2..];
      ShortHasArgSkip('s', opts[1..]);
      ShortHasArgSkip('s', opts);
    }
    assert ShortHasArg('c', opts) == Some(true) by {
      ShortHasArgHit('c', opts[7..]);
      assert opts[6..][1..] == opts[7..];
      ShortHasArgSkip('c', opts[6..]);
      assert opts[5..][1..] == opts[6..];
      ShortHasArgSkip('c', opts[5..]);
      assert opts[4..][1..] == opts[5..];
      ShortHasArgSkip('c', opts[4..]);
      assert opts[3..][1..] == opts[4..];
      ShortHasArgSkip('c', opts[3..]);
      assert opts[2..][1..] == opts[3..];
      ShortHasArgSkip('c', opts[2..]);
      assert opts[1..][1..] == opts[2..];
      ShortHasArgSkip('c', opts[1..]);
      ShortHasArgSkip('c', opts);
    }
  }

  /** '-m M -s S -t T -c C' before words whose parse fails: the whole parse fails the same way. */
  lemma ArgumentsThenFail(opts: string, m: string, s: string, t: string, c: string, tail: seq<string>, e: GetoptError)
    requires opts == ShortOpts && Getopt(tail, opts, LongOptsAsWritten) == Failed(e)
    ensures Getopt(["-m", m, "-s", s, "-t", t, "-c", c] + tail, opts, LongOptsAsWritten) == Failed(e)
  {
    ArgumentLetters(opts);
    var w3 := ["-c", c] + tail;
    var w2 := ["-t", t] + w3;
    var w1 := ["-s", s] + w2;
    ShortArgThenFails(opts, 'c', c, tail, e);
    ShortArgThenFails(opts, 't', t, w3, e);
    ShortArgThenFails(opts, 's', s, w2, e);
    ShortArgThenFails(opts, 'm', m, w1, e);
    Regroup("-m", m, "-s", s, "-t", t, "-c", c, tail);
  }

  /** Eight words before `tail`, taken two at a time. */
  lemma Regroup<T>(a: T, b: T, c: T, d: T, e: T, f: T, g: T, h: T, tail: seq<T>)
    ensures [a, b, c, d, e, f, g, h] + tail == [a, b] + ([c, d] + ([e, f] + ([g, h] + tail)))
  {
    var r := [a, b] + ([c, d] + ([e, f] + ([g, h] + tail)));
    assert |r| == 8 + |tail|;
    forall i | 0 <= i < |r|
      ensures r[i] == ([a, b, c, d, e, f, g, h] + tail)[i]
    {
      if i >= 8 {
        assert r[i] == tail[i - 8];
      }
    }
  }

  /**
   * A full command line ending in '--output-file=out' fails to parse with
   * the declared table, so `get_arguments` returns 77 for it.
   */
  lemma FullCommandLineAsWritten(m: string, s: string, t: string, c: string, tail: seq<string>)
    requires tail == ["--output-file=out"]
    ensures Getopt(["-m", m, "-s", s, "-t", t, "-c", c] + tail, ShortOpts, LongOptsAsWritten) ==
            Failed(MustNotHaveArgument("output-file"))
  {
    OutputFileAsWritten(tail);
    ArgumentsThenFail(ShortOpts, m, s, t, c, tail, MustNotHaveArgument("output-file"));
  }

  lemma OutputFilePlainWord(args: seq<string>, more: seq<string>)
    requires args == ["--output-file", "out"] + more
    ensures |args| > 0 && StartsWith(args[0], "--") && args[0] != "--"
    ensures args[0][2..] == "output-file" && args[1..] == ["out"] + more
  {
  }

  lemma OutputFilePlainAsWritten(rest: seq<string>)
    ensures DoLongs("output-file", LongOptsAsWritten, rest) == Parsed([Opt("--output-file", "")], rest)
  {
    OutputFileEntryAsWritten();
    DoLongsPlain("output-file", LongOptsAsWritten, rest);
    OutputFileName();
  }

  lemma OutputFileSeparateSteps(args: seq<string>, more: seq<string>)
    requires args == ["--output-file", "out"] + more
    ensures Getopt(args, ShortOpts, LongOptsAsWritten) == Parsed([Opt("--output-file", "")], ["out"] + more)
  {
    var o := Opt("--output-file", "");
    var rest := ["out"] + more;
    OutputFilePlainWord(args, more);
    calc {
      Getopt(args, ShortOpts, LongOptsAsWritten);
      { GetoptLongStep(args, ShortOpts, LongOptsAsWritten); }
      Continue(DoLongs(args[0][2..], LongOptsAsWritten, args[1..]), ShortOpts, LongOptsAsWritten);
      { OutputFilePlainAsWritten(rest); }
      Continue(Parsed([o], rest), ShortOpts, LongOptsAsWritten);
      { GetoptStopsAtOperand(rest, ShortOpts, LongOptsAsWritten); assert [o] + [] == [o]; }
      Parsed([o], rest);
    }
  }

  /** As declared, '--output-file out' stores '' and leaves 'out' and every later word unparsed. */
  lemma OutputFileSeparateAsWritten(more: seq<string>)
    ensures Getopt(["--output-file", "out"] + more, ShortOpts, LongOptsAsWritten) ==
            Parsed([Opt("--output-file", "")], ["out"] + more)
  {
    OutputFileSeparateSteps(["--output-file", "out"] + more, more);
  }

  lemma OutputFileValue()
    ensures DoLongs("output-file" + "=" + "out", LongOpts, []) == Parsed([Opt("--output-file", "out")], [])
  {
    OutputFileEntryAsWritten();
    OutputFileEntry();
    DoLongsValue("output-file", "out", LongOpts, []);
    OutputFileName();
  }

  lemma OutputFileCorrectedSteps(args: seq<string>)
    requires args == ["--output-file=out"]
    ensures Getopt(args, ShortOpts, LongOpts) == Parsed([Opt("--output-file", "out")], [])
  {
    var o := Opt("--output-file", "out");
    OutputFileWord(args[0]);
    calc {
      Getopt(args, ShortOpts, LongOpts);
      { GetoptLongStep(args, ShortOpts, LongOpts); }
      Continue(DoLongs(args[0][2..], LongOpts, args[1..]), ShortOpts, LongOpts);
      { assert args[1..] == []; OutputFileValue(); }
      Continue(Parsed([o], []), ShortOpts, LongOpts);
      { ContinueAtEnd([o], ShortOpts, LongOpts); }
      Parsed([o], []);
    }
  }

  /** With 'output-file=' in the table, '--output-file=out' sets the output file. */
  lemma OutputFileCorrected()
    ensures Getopt(["--output-file=out"], ShortOpts, LongOpts) == Parsed([Opt("--output-file", "out")], [])
  {
    OutputFileCorrectedSteps(["--output-file=out"]);
  }

  /** The parsed '--output-file=out' fills the output file. */
  lemma OutputFileStored()
    ensures Collected([Opt("--output-file", "out")]).outputFile == Some("out")
  {
  }
}
