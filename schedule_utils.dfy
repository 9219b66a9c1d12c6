/**
 * The helpers of the schedule-engine script: reading its settings from the
 * environment, and its command line (`-s`/`--town-file` and `-t`/`--town`).
 */
module ScheduleUtils {
  import opened Options
  import opened PyText
  import opened PyGetopt
  import opened Cells

  /**
   * One environment lookup: a required variable (missing, it logs an error
   * and sets return code 66) or one with a default (missing, it logs a
   * warning and stores the default).
   */
  datatype EnvCheck =
    | Required(variable: string, key: string)
    | Defaulted(variable: string, key: string, default: string)

  /** The lookups in the order they are made. */
  const Checks: seq<EnvCheck> := [
    Required("MASTER_SCHEDULE_ID", "spreadsheet_id"),
    Required("RANGE_NAME", "range_name"),
    Defaulted("TRANSLATION_FILE", "translation_file", "files/translations.json"),
    Defaulted("OUTPUT_FILE_PREFIX", "output_file_prefix", "schedule"),
    Required("GOOGLE_APPLICATION_CREDENTIALS", "credentials")
  ]

  function MissingMessage(variable: string): string {
    variable + " environment variable is missing"
  }

  function DefaultMessage(variable: string): string {
    variable + " environment variable is missing, using default"
  }

  /** The message a lookup logs when its variable is missing. */
  function Diagnostic(c: EnvCheck): LogLine {
    match c
    case Required(v, _) => LogError(MissingMessage(v))
    case Defaulted(v, _, _) => LogWarning(DefaultMessage(v))
  }

  /** The messages of the lookups in `checks` whose variable is missing, in lookup order. */
  function Diagnostics(environ: map<string, string>, checks: seq<EnvCheck>): (log: seq<LogLine>)
    ensures |log| <= |checks|
  {
    if |checks| == 0 then []
    else
      var last := checks[|checks| - 1];
      Diagnostics(environ, checks[..|checks| - 1]) + (if last.variable in environ then [] else [Diagnostic(last)])
  }

  /** Every message comes from a lookup whose variable is missing. */
  lemma {:induction false} DiagnosticsFrom(environ: map<string, string>, checks: seq<EnvCheck>)
    ensures forall l :: l in Diagnostics(environ, checks) ==>
              exists c :: c in checks && c.variable !in environ && l == Diagnostic(c)
  {
    if |checks| > 0 {
      var front := checks[..|checks| - 1];
      DiagnosticsFrom(environ, front);
      assert forall c :: c in front ==> c in checks;
    }
  }

  /** What the lookups `checks` leave in `environment`, made in order. */
  function Environment(environ: map<string, string>, checks: seq<EnvCheck>): map<string, string> {
    if |checks| == 0 then map[]
    else Looked(Environment(environ, checks[..|checks| - 1]), environ, checks[|checks| - 1])
  }

  /** The code after the lookups `checks`: 66 once a required variable is missing. */
  function ErrorCode(environ: map<string, string>, checks: seq<EnvCheck>): int {
    if |checks| == 0 then 0
    else
      var last := checks[|checks| - 1];
      if last.Required? && last.variable !in environ then 66 else ErrorCode(environ, checks[..|checks| - 1])
  }

  /** The three folds after one more lookup. */
  lemma LookupsSnoc(environ: map<string, string>, checks: seq<EnvCheck>, k: nat)
    requires k < |checks|
    ensures Environment(environ, checks[..k + 1]) == Looked(Environment(environ, checks[..k]), environ, checks[k])
    ensures ErrorCode(environ, checks[..k + 1]) ==
            (if checks[k].Required? && checks[k].variable !in environ then 66 else ErrorCode(environ, checks[..k]))
    ensures Diagnostics(environ, checks[..k + 1]) ==
            Diagnostics(environ, checks[..k]) + (if checks[k].variable in environ then [] else [Diagnostic(checks[k])])
  {
    assert checks[..k + 1][..k] == checks[..k];
    assert checks[..k + 1][k] == checks[k];
  }

  lemma ChecksTable()
    ensures Checks[0].variable == "MASTER_SCHEDULE_ID" && Diagnostic(Checks[0]) == LogError(MissingMessage("MASTER_SCHEDULE_ID"))
    ensures Checks[1].variable == "RANGE_NAME" && Diagnostic(Checks[1]) == LogError(MissingMessage("RANGE_NAME"))
    ensures Checks[2].variable == "TRANSLATION_FILE" && Diagnostic(Checks[2]) == LogWarning(DefaultMessage("TRANSLATION_FILE"))
    ensures Checks[3].variable == "OUTPUT_FILE_PREFIX" && Diagnostic(Checks[3]) == LogWarning(DefaultMessage("OUTPUT_FILE_PREFIX"))
    ensures Checks[4].variable == "GOOGLE_APPLICATION_CREDENTIALS" && Diagnostic(Checks[4]) == LogError(MissingMessage("GOOGLE_APPLICATION_CREDENTIALS"))
  {
  }

  /**
   * What a lookup leaves in `environment`: a found variable under its key;
   * for a missing one, the default, or no key at all when it is required.
   */
  predicate Stores(environment: map<string, string>, environ: map<string, string>, c: EnvCheck) {
    match c
    case Required(v, k) => (k in environment <==> v in environ) && (v in environ ==> environment[k] == environ[v])
    case Defaulted(v, k, d) => k in environment && environment[k] == (if v in environ then environ[v] else d)
  }

  predicate RequiredPresent(environ: map<string, string>) {
    "MASTER_SCHEDULE_ID" in environ && "RANGE_NAME" in environ && "GOOGLE_APPLICATION_CREDENTIALS" in environ
  }

  /** What one lookup leaves in `environment`. */
  function Looked(environment: map<string, string>, environ: map<string, string>, c: EnvCheck): map<string, string> {
    if c.variable in environ then environment[c.key := environ[c.variable]]
    else if c.Defaulted? then environment[c.key := c.default]
    else environment
  }

  /**
   * One `try: environment[key] = environ[variable]` block with its
   * `except KeyError` handler: the message for a missing variable is
   * logged, and a missing required one sets the code to 66.
   */
  method LookupVariable(environ: map<string, string>, c: EnvCheck, environment: map<string, string>, error: int,
                        log: seq<LogLine>)
    returns (environment': map<string, string>, error': int, log': seq<LogLine>)
    ensures environment' == Looked(environment, environ, c)
    ensures error' == (if c.Required? && c.variable !in environ then 66 else error)
    ensures log' == log + (if c.variable in environ then [] else [Diagnostic(c)])
  {
    environment', error', log' := environment, error, log;
    if c.variable in environ {
      environment' := environment'[c.key := environ[c.variable]];
    } else {
      log' := log' + [Diagnostic(c)];
      match c
      case Required(_, _) => error' := 66;
      case Defaulted(_, k, d) => environment' := environment'[k := d];
    }
  }

  /** A lookup stores what it promises when a required key was not already there. */
  lemma LookedStores(environment: map<string, string>, environ: map<string, string>, c: EnvCheck)
    requires c.Required? ==> c.key !in environment
    ensures Stores(Looked(environment, environ, c), environ, c)
  {
  }

  /** A lookup under another key leaves what an earlier lookup stored. */
  lemma LookedKeeps(environment: map<string, string>, environ: map<string, string>, c: EnvCheck, d: EnvCheck)
    requires Stores(environment, environ, d) && c.key != d.key
    ensures Stores(Looked(environment, environ, c), environ, d)
  {
  }

  /** Every key stored comes from one of the lookups. */
  lemma {:induction false} EnvironmentKeys(environ: map<string, string>, checks: seq<EnvCheck>)
    ensures forall k :: k in Environment(environ, checks) ==> exists j :: 0 <= j < |checks| && checks[j].key == k
  {
    if |checks| > 0 {
      var front := checks[..|checks| - 1];
      EnvironmentKeys(environ, front);
      forall k | k in Environment(environ, checks)
        ensures exists j :: 0 <= j < |checks| && checks[j].key == k
      {
        if k != checks[|checks| - 1].key {
          assert k in Environment(environ, front);
          var j :| 0 <= j < |front| && front[j].key == k;
          assert checks[j] == front[j];
        }
      }
    }
  }

  /** No two lookups store under the same key. */
  predicate DistinctKeys(checks: seq<EnvCheck>) {
    forall i, j :: 0 <= i < j < |checks| ==> checks[i].key != checks[j].key
  }

  /** With distinct keys, every lookup's outcome survives the lookups after it. */
  lemma {:induction false} EnvironmentStores(environ: map<string, string>, checks: seq<EnvCheck>, i: nat)
    requires DistinctKeys(checks) && i < |checks|
    ensures Stores(Environment(environ, checks), environ, checks[i])
  {
    var n := |checks|;
    var front := checks[..n - 1];
    var last := checks[n - 1];
    assert DistinctKeys(front) by {
      forall a, b | 0 <= a < b < |front|
        ensures front[a].key != front[b].key
      {
        assert front[a] == checks[a] && front[b] == checks[b];
      }
    }
    var before := Environment(environ, front);
    if i == n - 1 {
      EnvironmentKeys(environ, front);
      forall j | 0 <= j < |front|
        ensures front[j].key != last.key
      {
        assert front[j] == checks[j];
      }
      assert last.key !in before;
      LookedStores(before, environ, last);
    } else {
      EnvironmentStores(environ, front, i);
      assert front[i] == checks[i];
      LookedKeeps(before, environ, last, checks[i]);
    }
  }

  /** The code is 0 when every required variable is present and 66 otherwise. */
  lemma {:induction false} ErrorCodeMeaning(environ: map<string, string>, checks: seq<EnvCheck>)
    ensures ErrorCode(environ, checks) == 0 || ErrorCode(environ, checks) == 66
    ensures ErrorCode(environ, checks) == 0 <==>
            forall j :: 0 <= j < |checks| && checks[j].Required? ==> checks[j].variable in environ
  {
    if |checks| > 0 {
      var front := checks[..|checks| - 1];
      ErrorCodeMeaning(environ, front);
      assert forall j :: 0 <= j < |front| ==> front[j] == checks[j];
    }
  }

  /** The five lookups are the whole table. */
  lemma AllLookups(environ: map<string, string>)
    ensures Environment(environ, Checks[..5]) == Environment(environ, Checks)
    ensures ErrorCode(environ, Checks[..5]) == ErrorCode(environ, Checks)
    ensures Diagnostics(environ, Checks[..5]) == Diagnostics(environ, Checks)
  {
    assert Checks[..5] == Checks;
  }

  /** After the five lookups the code is 0 exactly when the three required variables are present, else 66. */
  lemma LookupsCode(environ: map<string, string>)
    ensures ErrorCode(environ, Checks) == 0 <==> RequiredPresent(environ)
    ensures ErrorCode(environ, Checks) == 0 || ErrorCode(environ, Checks) == 66
  {
    ErrorCodeMeaning(environ, Checks);
    ChecksTable();
    assert Checks[2].Defaulted? && Checks[3].Defaulted?;
  }

  /** Each of the five lookups stored what it promises. */
  lemma LookupsStore(environ: map<string, string>, i: nat)
    requires i < |Checks|
    ensures Stores(Environment(environ, Checks), environ, Checks[i])
  {
    assert DistinctKeys(Checks);
    EnvironmentStores(environ, Checks, i);
  }

  /** The five lookups set no key but their own. */
  lemma LookupsKeys(environ: map<string, string>)
    ensures Environment(environ, Checks).Keys <=
            {"spreadsheet_id", "range_name", "translation_file", "output_file_prefix", "credentials"}
  {
    EnvironmentKeys(environ, Checks);
  }

  /** Lookup `k` of `checks`, after the ones before it. */
  method LookupNext(environ: map<string, string>, checks: seq<EnvCheck>, k: nat, environment: map<string, string>,
                    error: int, log: seq<LogLine>)
    returns (environment': map<string, string>, error': int, log': seq<LogLine>)
    requires k < |checks|
    requires environment == Environment(environ, checks[..k]) && error == ErrorCode(environ, checks[..k])
    requires log == Diagnostics(environ, checks[..k])
    ensures environment' == Environment(environ, checks[..k + 1]) && error' == ErrorCode(environ, checks[..k + 1])
    ensures log' == Diagnostics(environ, checks[..k + 1])
  {
    LookupsSnoc(environ, checks, k);
    environment', error', log' := LookupVariable(environ, checks[k], environment, error, log);
  }

  /**
   * `get_environment()` over the process environment `environ`: the five
   * lookups in order, each storing a found variable under its key, leaving
   * a missing required one out (code 66) and storing a missing defaulted
   * one's default.
   */
  method GetEnvironment(environ: map<string, string>) returns (error: int, environment: map<string, string>, log: seq<LogLine>)
    ensures environment == Environment(environ, Checks)
    ensures error == ErrorCode(environ, Checks)
    ensures log == Diagnostics(environ, Checks)
  {
    environment, error, log := map[], 0, [];
    assert Checks[..0] == [];
    environment, error, log := LookupNext(environ, Checks, 0, environment, error, log);
    environment, error, log := LookupNext(environ, Checks, 1, environment, error, log);
    environment, error, log := LookupNext(environ, Checks, 2, environment, error, log);
    environment, error, log := LookupNext(environ, Checks, 3, environment, error, log);
    environment, error, log := LookupNext(environ, Checks, 4, environment, error, log);
    assert Checks[..5] == Checks;
  }

  /** Only the required variables can make the code non-zero: the defaulted ones give warnings. */
  lemma DefaultsOnlyWarn(environ: map<string, string>)
    requires RequiredPresent(environ)
    ensures forall l :: l in Diagnostics(environ, Checks) ==> l.LogWarning?
  {
    DiagnosticsFrom(environ, Checks);
  }

  const Usage: string := "USAGE: schedule.py -s <town schedule file> -t <town>"
  const ShortOpts: string := "hs:t:"
  const LongOpts: seq<string> := ["town-file=", "town="]
  const TownFileNames: set<string> := {"-s", "--town-file"}
  const TownNames: set<string> := {"-t", "--town"}

  /** The `arguments` dictionary; `None` is a key still unset. */
  datatype Arguments = Arguments(townFile: Option<string>, town: Option<string>)

  /** What the option loop has stored after `opts`: the last town file, and the last town lower-cased. */
  function Collected(opts: seq<Opt>): Arguments {
    var t := LastValue(opts, TownNames);
    Arguments(LastValue(opts, TownFileNames), if t.Some? then Some(Lower(t.value)) else None)
  }

  /** The option loop of `get_arguments`, stopping at the first '-h'. */
  method CollectOptions(opts: seq<Opt>) returns (help: bool, arguments: Arguments)
    ensures help <==> HelpIndex(opts) < |opts|
    ensures arguments == Collected(opts[..HelpIndex(opts)])
  {
    arguments := Arguments(None, None);
    var i := 0;
    while i < |opts|
      invariant 0 <= i <= |opts|
      invariant forall j :: 0 <= j < i ==> opts[j].name != "-h"
      invariant arguments == Collected(opts[..i])
    {
      var o := opts[i];
      assert opts[..i + 1] == opts[..i] + [o];
      LastValueSnoc(opts[..i], o, TownFileNames);
      LastValueSnoc(opts[..i], o, TownNames);
      if o.name == "-h" {
        return true, arguments;
      } else if o.name in TownFileNames {
        arguments := arguments.(townFile := Some(o.arg));
      } else if o.name in TownNames {
        arguments := arguments.(town := Some(Lower(o.arg)));
      }
      i := i + 1;
    }
    assert opts[..i] == opts;
    return false, arguments;
  }

  /**
   * `get_arguments(args)`: 77 with nothing set when `getopt` fails; 99 at the
   * first '-h'; otherwise 0 exactly when both the town and the town file are
   * set, else 99. Every non-zero code logs the usage line once.
   */
  method GetArguments(args: seq<string>) returns (rc: int, arguments: Arguments, log: seq<LogLine>)
    ensures match Getopt(args, ShortOpts, LongOpts)
            case Failed(_) => rc == 77 && arguments == Arguments(None, None) && log == [LogError(Usage)]
            case Parsed(opts, _) =>
              var k := HelpIndex(opts);
              if k < |opts| then rc == 99 && arguments == Collected(opts[..k]) && log == [LogError(Usage)]
              else arguments == Collected(opts) &&
                   (rc == 0 <==> arguments.town.Some? && arguments.townFile.Some?) &&
                   (rc == 0 || rc == 99) && log == (if rc == 0 then [] else [LogError(Usage)])
  {
    var parse := Getopt(args, ShortOpts, LongOpts);
    if parse.Failed? {
      return 77, Arguments(None, None), [LogError(Usage)];
    }
    var help;
    help, arguments := CollectOptions(parse.opts);
    if help {
      return 99, arguments, [LogError(Usage)];
    }
    assert parse.opts[..|parse.opts|] == parse.opts;
    if arguments.town.None? || arguments.townFile.None? {
      return 99, arguments, [LogError(Usage)];
    }
    return 0, arguments, [];
  }

  /** The town file is stored as given, the town in lower case. */
  lemma CollectedValues(opts: seq<Opt>)
    ensures Collected(opts).townFile == LastValue(opts, TownFileNames)
    ensures Collected(opts).town.Some? ==> Lower(Collected(opts).town.value) == Collected(opts).town.value
  {
    var t := LastValue(opts, TownNames);
    if t.Some? {
      LowerIdempotent(t.value);
    }
  }

  /** '-s Y' at the end of the words is one option with its argument. */
  lemma TownFileLast(b: string)
    ensures Getopt(["-s", b], ShortOpts, LongOpts) == Parsed([Opt("-s", b)], [])
  {
    assert ShortHasArg('s', ShortOpts) == Some(true);
    assert ["-s", b] == [['-', 's'], b] + [];
    GetoptShortArg('s', b, [], ShortOpts, LongOpts);
    ContinueAtEnd([Opt("-s", b)], ShortOpts, LongOpts);
  }

  /** '-t X' is parsed first, and parsing goes on with the words after it. */
  lemma TownFirst(a: string, b: string)
    ensures Getopt(["-t", a, "-s", b], ShortOpts, LongOpts) ==
            Continue(Parsed([Opt("-t", a)], ["-s", b]), ShortOpts, LongOpts)
  {
    assert ShortHasArg('t', ShortOpts) == Some(true);
    assert ["-t", a, "-s", b] == [['-', 't'], a] + ["-s", b];
    GetoptShortArg('t', a, ["-s", b], ShortOpts, LongOpts);
  }

  /** After '-t X', the words '-s Y' add the second option and leave nothing. */
  lemma TownFileAfter(a: string, b: string)
    ensures Continue(Parsed([Opt("-t", a)], ["-s", b]), ShortOpts, LongOpts) == Parsed([Opt("-t", a), Opt("-s", b)], [])
  {
    TownFileLast(b);
    ContinueParsed([Opt("-t", a)], ["-s", b], [Opt("-s", b)], [], ShortOpts, LongOpts);
    assert [Opt("-t", a)] + [Opt("-s", b)] == [Opt("-t", a), Opt("-s", b)];
  }

  lemma TownPair(a: string, b: string)
    ensures Getopt(["-t", a, "-s", b], ShortOpts, LongOpts) == Parsed([Opt("-t", a), Opt("-s", b)], [])
  {
    TownFirst(a, b);
    TownFileAfter(a, b);
  }

  lemma TownAndFileCollected(a: string, b: string)
    ensures Collected([Opt("-t", a), Opt("-s", b)]) == Arguments(Some(b), Some(Lower(a)))
  {
    var opts := [Opt("-t", a), Opt("-s", b)];
    assert "-s" in TownFileNames && "-s" !in TownNames;
    assert "-t" in TownNames && "-t" !in TownFileNames;
    assert opts[..1] == [Opt("-t", a)];
    assert LastValue(opts, TownFileNames) == Some(b);
    assert LastValue(opts, TownNames) == LastValue([Opt("-t", a)], TownNames) == Some(a);
  }

  /** '-t X -s Y' parses to both options, whatever X and Y are, and sets both keys. */
  lemma TownAndFileParse(a: string, b: string)
    ensures Getopt(["-t", a, "-s", b], ShortOpts, LongOpts) == Parsed([Opt("-t", a), Opt("-s", b)], [])
    ensures Collected([Opt("-t", a), Opt("-s", b)]) == Arguments(Some(b), Some(Lower(a)))
  {
    TownPair(a, b);
    TownAndFileCollected(a, b);
  }
}
