/**
 * The subset of Python's `getopt.getopt` the scripts rely on: short options
 * (a letter, followed by ':' when it takes an argument), long options (a
 * name, followed by '=' when it takes an argument, abbreviable to any
 * unique prefix), parsing that stops at the first non-option, '-' or '--',
 * and a `GetoptError` for an unknown option or a missing or unexpected
 * argument.
 */
module PyGetopt {
  import opened Options
  import opened PyText

  /** One parsed option: its name as written ('-m', '--town') and its argument ('' if none). */
  datatype Opt = Opt(name: string, arg: string)

  datatype GetoptError =
    | NotRecognized(opt: string)
    | RequiresArgument(opt: string)
    | MustNotHaveArgument(opt: string)
    | NotUniquePrefix(opt: string)

  /** The `(opts, args)` pair `getopt` returns, or the error it raises. */
  datatype Parse = Parsed(opts: seq<Opt>, rest: seq<string>) | Failed(reason: GetoptError)

  /** A long option resolved against the table: its full name and whether it takes an argument. */
  datatype LongMatch = Found(hasArg: bool, name: string) | Refused(reason: GetoptError)

  predicate IsSuffix(s: seq<string>, t: seq<string>) {
    |s| <= |t| && s == t[|t| - |s|..]
  }

  /**
   * Whether the short option `c` takes an argument, or `None` when `c` does
   * not occur in `shortopts` (':' itself is never an option).
   */
  function ShortHasArg(c: char, shortopts: string): (r: Option<bool>)
    ensures r.Some? <==> c != ':' && c in shortopts
  {
    if c == ':' || |shortopts| == 0 then None
    else if shortopts[0] == c then Some(|shortopts| > 1 && shortopts[1] == ':')
    else ShortHasArg(c, shortopts[1..])
  }

  /** A different letter at the front is passed over. */
  lemma ShortHasArgSkip(c: char, shortopts: string)
    requires c != ':' && |shortopts| > 0 && shortopts[0] != c
    ensures ShortHasArg(c, shortopts) == ShortHasArg(c, shortopts[1..])
  {
  }

  /** The letter at the front, followed by ':', takes an argument. */
  lemma ShortHasArgHit(c: char, shortopts: string)
    requires c != ':' && |shortopts| > 1 && shortopts[0] == c && shortopts[1] == ':'
    ensures ShortHasArg(c, shortopts) == Some(true)
  {
  }

  /** The table entries `opt` is a prefix of, in table order. */
  function Possibilities(opt: string, longopts: seq<string>): (ps: seq<string>)
    ensures forall p :: p in ps <==> p in longopts && StartsWith(p, opt)
  {
    if |longopts| == 0 then []
    else (if StartsWith(longopts[0], opt) then [longopts[0]] else []) + Possibilities(opt, longopts[1..])
  }

  /**
   * Resolves a long option: an exact entry wins (without or with '='),
   * then a unique prefix; no candidate or several are errors.
   */
  function LongHasArgs(opt: string, longopts: seq<string>): (r: LongMatch)
    ensures r.Found? ==> var entry := if r.hasArg then r.name + "=" else r.name;
                         entry in longopts && StartsWith(entry, opt)
    ensures r == Refused(NotRecognized(opt)) <==> forall p :: p in longopts ==> !StartsWith(p, opt)
    ensures opt in longopts ==> r == Found(false, opt)
    ensures opt !in longopts && opt + "=" in longopts ==> r == Found(true, opt)
  {
    var ps := Possibilities(opt, longopts);
    if |ps| == 0 then Refused(NotRecognized(opt))
    else if opt in ps then
      assert StartsWith(opt, opt);
      Found(false, opt)
    else if opt + "=" in ps then Found(true, opt)
    else if |ps| > 1 then
      assert ps[0] in ps;
      Refused(NotUniquePrefix(opt))
    else
      var u := ps[0];
      assert u in ps;
      if |u| > 0 && u[|u| - 1] == '=' then
        assert u[..|u| - 1] + "=" == u;
        Found(true, u[..|u| - 1])
      else Found(false, u)
  }

  /** Position of the first `c` in `s`, or `|s|` when there is none. */
  function IndexOf(s: string, c: char): (i: nat)
    ensures i <= |s|
    ensures i < |s| ==> s[i] == c
    ensures forall j :: 0 <= j < i ==> s[j] != c
  {
    if |s| == 0 then 0
    else if s[0] == c then 0
    else 1 + IndexOf(s[1..], c)
  }

  lemma {:induction false} IndexOfAbsent(s: string, c: char)
    requires c !in s
    ensures IndexOf(s, c) == |s|
  {
    if |s| > 0 {
      assert c !in s[1..];
      IndexOfAbsent(s[1..], c);
    }
  }

  lemma {:induction false} IndexOfFirst(a: string, c: char, b: string)
    requires c !in a
    ensures IndexOf(a + [c] + b, c) == |a|
    ensures (a + [c] + b)[..|a|] == a && (a + [c] + b)[|a| + 1..] == b
  {
    if |a| > 0 {
      assert (a + [c] + b)[1..] == a[1..] + [c] + b;
      assert c !in a[1..];
      IndexOfFirst(a[1..], c, b);
    } else {
      assert (a + [c] + b)[0] == c;
    }
  }

  /**
   * One '--name' or '--name=value' word (`text` is what follows '--'); an
   * option that takes an argument and has no '=' consumes the next word.
   */
  function DoLongs(text: string, longopts: seq<string>, args: seq<string>): (r: Parse)
    ensures r.Parsed? ==> IsSuffix(r.rest, args) && |r.opts| == 1
  {
    var i := IndexOf(text, '=');
    var opt := text[..i];
    var optarg: Option<string> := if i < |text| then Some(text[i + 1..]) else None;
    match LongHasArgs(opt, longopts)
    case Refused(e) => Failed(e)
    case Found(hasArg, name) =>
      if hasArg then
        if optarg.Some? then Parsed([Opt("--" + name, optarg.value)], args)
        else if |args| == 0 then Failed(RequiresArgument(name))
        else Parsed([Opt("--" + name, args[0])], args[1..])
      else if optarg.Some? then Failed(MustNotHaveArgument(name))
      else Parsed([Opt("--" + name, "")], args)
  }

  /** A '--name' word without '=': an option that takes an argument takes the next word. */
  lemma DoLongsPlain(text: string, longopts: seq<string>, args: seq<string>)
    requires '=' !in text
    ensures var m := LongHasArgs(text, longopts);
            DoLongs(text, longopts, args) ==
              if m.Refused? then Failed(m.reason)
              else if !m.hasArg then Parsed([Opt("--" + m.name, "")], args)
              else if |args| == 0 then Failed(RequiresArgument(m.name))
              else Parsed([Opt("--" + m.name, args[0])], args[1..])
  {
    IndexOfAbsent(text, '=');
    assert text[..|text|] == text;
  }

  /** A '--name=value' word: the value is the argument, refused when the option takes none. */
  lemma DoLongsValue(name: string, value: string, longopts: seq<string>, args: seq<string>)
    requires '=' !in name
    ensures var m := LongHasArgs(name, longopts);
            DoLongs(name + "=" + value, longopts, args) ==
              if m.Refused? then Failed(m.reason)
              else if m.hasArg then Parsed([Opt("--" + m.name, value)], args)
              else Failed(MustNotHaveArgument(m.name))
  {
    assert name + "=" + value == name + ['='] + value;
    IndexOfFirst(name, '=', value);
  }

  /**
   * A cluster of short options ('-ab', '-mfile'): letters without an
   * argument are taken one by one; a letter that takes one takes the rest
   * of the word, or the next word when the rest is empty.
   */
  function DoShorts(optstring: string, shortopts: string, args: seq<string>): (r: Parse)
    ensures r.Parsed? ==> IsSuffix(r.rest, args)
    ensures r.Parsed? ==> forall o :: o in r.opts ==>
                            |o.name| == 2 && o.name[0] == '-' && ShortHasArg(o.name[1], shortopts).Some?
    decreases |optstring|
  {
    if optstring == "" then Parsed([], args)
    else
      var c := optstring[0];
      var more := optstring[1..];
      match ShortHasArg(c, shortopts)
      case None => Failed(NotRecognized([c]))
      case Some(true) =>
        if more != "" then Parsed([Opt(['-', c], more)], args)
        else if |args| == 0 then Failed(RequiresArgument([c]))
        else Parsed([Opt(['-', c], args[0])], args[1..])
      case Some(false) =>
        match DoShorts(more, shortopts, args)
        case Failed(e) => Failed(e)
        case Parsed(os, rest) => Parsed([Opt(['-', c], "")] + os, rest)
  }

  /** An option name that the tables declare. */
  predicate Declared(name: string, shortopts: string, longopts: seq<string>) {
    (|name| == 2 && name[0] == '-' && ShortHasArg(name[1], shortopts).Some?) ||
    (|name| >= 2 && name[..2] == "--" && (name[2..] in longopts || name[2..] + "=" in longopts))
  }

  lemma DoLongsDeclared(text: string, longopts: seq<string>, args: seq<string>, shortopts: string)
    ensures var r := DoLongs(text, longopts, args);
            r.Parsed? ==> forall o :: o in r.opts ==> Declared(o.name, shortopts, longopts)
  {
    var r := DoLongs(text, longopts, args);
    if r.Parsed? {
      var m := LongHasArgs(text[..IndexOf(text, '=')], longopts);
      var name := "--" + m.name;
      assert name[2..] == m.name;
      assert r.opts == [Opt(name, r.opts[0].arg)];
    }
  }

  lemma DoShortsDeclared(optstring: string, shortopts: string, args: seq<string>, longopts: seq<string>)
    ensures var r := DoShorts(optstring, shortopts, args);
            r.Parsed? ==> forall o :: o in r.opts ==> Declared(o.name, shortopts, longopts)
  {
    var r := DoShorts(optstring, shortopts, args);
    if r.Parsed? {
      forall o | o in r.opts ensures Declared(o.name, shortopts, longopts) {
        assert ShortHasArg(o.name[1], shortopts).Some?;
      }
    }
  }

  /**
   * `getopt(args, shortopts, longopts)`: options are parsed while the next
   * word starts with '-' and is not '-' itself; '--' ends them and is dropped.
   */
  function Getopt(args: seq<string>, shortopts: string, longopts: seq<string>): (r: Parse)
    ensures r.Parsed? ==> IsSuffix(r.rest, args)
    decreases |args|
  {
    if |args| == 0 || !StartsWith(args[0], "-") || args[0] == "-" then Parsed([], args)
    else if args[0] == "--" then Parsed([], args[1..])
    else
      var step := if StartsWith(args[0], "--") then DoLongs(args[0][2..], longopts, args[1..])
                  else DoShorts(args[0][1..], shortopts, args[1..]);
      match step
      case Failed(e) => Failed(e)
      case Parsed(os, rest) =>
        match Getopt(rest, shortopts, longopts)
        case Failed(e) => Failed(e)
        case Parsed(more, rest') => Parsed(os + more, rest')
  }

  /** Parsing after one word: its options, then those of the words it left. */
  function Continue(step: Parse, shortopts: string, longopts: seq<string>): Parse {
    match step
    case Failed(e) => Failed(e)
    case Parsed(os, rest) =>
      var after := Getopt(rest, shortopts, longopts);
      if after.Failed? then after else Parsed(os + after.opts, after.rest)
  }

  /** Parsing goes on after a step with what the remaining words parse as. */
  lemma ContinueParsed(os: seq<Opt>, rest: seq<string>, more: seq<Opt>, left: seq<string>, shortopts: string,
                       longopts: seq<string>)
    requires Getopt(rest, shortopts, longopts) == Parsed(more, left)
    ensures Continue(Parsed(os, rest), shortopts, longopts) == Parsed(os + more, left)
  {
  }

  /** An error in the remaining words ends the whole parse with that error. */
  lemma ContinueFailed(os: seq<Opt>, rest: seq<string>, e: GetoptError, shortopts: string, longopts: seq<string>)
    requires Getopt(rest, shortopts, longopts) == Failed(e)
    ensures Continue(Parsed(os, rest), shortopts, longopts) == Failed(e)
  {
  }

  lemma ContinueAtEnd(os: seq<Opt>, shortopts: string, longopts: seq<string>)
    ensures Continue(Parsed(os, []), shortopts, longopts) == Parsed(os, [])
  {
    assert os + [] == os;
  }

  /** A '--name' word is parsed by `DoLongs`, and parsing goes on after what it consumed. */
  lemma GetoptLongStep(args: seq<string>, shortopts: string, longopts: seq<string>)
    requires |args| > 0 && StartsWith(args[0], "--") && args[0] != "--"
    ensures var step := DoLongs(args[0][2..], longopts, args[1..]);
            Getopt(args, shortopts, longopts) == Continue(step, shortopts, longopts)
  {
    assert StartsWith(args[0], "-");
  }

  /** A '-abc' word is parsed by `DoShorts`, and parsing goes on after what it consumed. */
  lemma GetoptShortStep(args: seq<string>, shortopts: string, longopts: seq<string>)
    requires |args| > 0 && StartsWith(args[0], "-") && !StartsWith(args[0], "--") && args[0] != "-"
    ensures var step := DoShorts(args[0][1..], shortopts, args[1..]);
            Getopt(args, shortopts, longopts) == Continue(step, shortopts, longopts)
  {
  }

  /** '-c value' for a short option `c` that takes an argument: the next word is its argument. */
  lemma GetoptShortArg(c: char, a: string, rest: seq<string>, shortopts: string, longopts: seq<string>)
    requires c != '-' && ShortHasArg(c, shortopts) == Some(true)
    ensures Getopt([['-', c], a] + rest, shortopts, longopts) ==
            Continue(Parsed([Opt(['-', c], a)], rest), shortopts, longopts)
  {
    var args := [['-', c], a] + rest;
    assert args[0] == ['-', c] && args[1..] == [a] + rest;
    assert args[0][..2][1] != "--"[1];
    assert StartsWith(args[0], "-") && !StartsWith(args[0], "--") && args[0] != "-";
    assert args[0][1..] == [c];
    assert DoShorts([c], shortopts, args[1..]) == Parsed([Opt(['-', c], a)], rest) by {
      assert [c][1..] == "";
    }
    GetoptShortStep(args, shortopts, longopts);
  }

  /** Every option `getopt` returns is one the option tables declare. */
  lemma {:induction false} GetoptDeclared(args: seq<string>, shortopts: string, longopts: seq<string>)
    ensures var r := Getopt(args, shortopts, longopts);
            r.Parsed? ==> forall o :: o in r.opts ==> Declared(o.name, shortopts, longopts)
    decreases |args|
  {
    if |args| == 0 || !StartsWith(args[0], "-") || args[0] == "-" || args[0] == "--" {
    } else {
      var step := if StartsWith(args[0], "--") then DoLongs(args[0][2..], longopts, args[1..])
                  else DoShorts(args[0][1..], shortopts, args[1..]);
      if StartsWith(args[0], "--") {
        DoLongsDeclared(args[0][2..], longopts, args[1..], shortopts);
      } else {
        DoShortsDeclared(args[0][1..], shortopts, args[1..], longopts);
      }
      if step.Parsed? {
        GetoptDeclared(step.rest, shortopts, longopts);
      }
    }
  }

  /** A word that is not an option ends the parse: it and all after it are left over. */
  lemma GetoptStopsAtOperand(args: seq<string>, shortopts: string, longopts: seq<string>)
    requires |args| > 0 && (!StartsWith(args[0], "-") || args[0] == "-")
    ensures Getopt(args, shortopts, longopts) == Parsed([], args)
  {
  }

  /** The argument of the last option in `opts` named in `names`, if any. */
  function LastValue(opts: seq<Opt>, names: set<string>): Option<string> {
    if |opts| == 0 then None
    else if opts[|opts| - 1].name in names then Some(opts[|opts| - 1].arg)
    else LastValue(opts[..|opts| - 1], names)
  }

  /** `LastValue` finds an option named in `names`, and none named so comes after it. */
  lemma {:induction false} LastValueMeans(opts: seq<Opt>, names: set<string>)
    ensures LastValue(opts, names).Some? <==> exists i :: 0 <= i < |opts| && opts[i].name in names
    ensures LastValue(opts, names).Some? ==>
              exists i :: 0 <= i < |opts| && opts[i].name in names && opts[i].arg == LastValue(opts, names).value &&
                          forall j :: i < j < |opts| ==> opts[j].name !in names
  {
    if |opts| > 0 {
      var n := |opts| - 1;
      if opts[n].name in names {
        assert 0 <= n < |opts| && opts[n].name in names;
      } else {
        var front := opts[..n];
        LastValueMeans(front, names);
        assert forall i :: 0 <= i < n ==> front[i] == opts[i];
        if LastValue(front, names).Some? {
          var i :| 0 <= i < |front| && front[i].name in names && front[i].arg == LastValue(front, names).value &&
                   forall j :: i < j < |front| ==> front[j].name !in names;
          assert opts[i].name in names && opts[i].arg == LastValue(opts, names).value;
        }
      }
    }
  }

  lemma LastValueSnoc(opts: seq<Opt>, o: Opt, names: set<string>)
    ensures LastValue(opts + [o], names) == if o.name in names then Some(o.arg) else LastValue(opts, names)
  {
    assert (opts + [o])[..|opts|] == opts;
  }

  /** Index of the first option named '-h', or `|opts|` when there is none. */
  function HelpIndex(opts: seq<Opt>): (k: nat)
    ensures k <= |opts|
    ensures k < |opts| ==> opts[k].name == "-h"
    ensures forall j :: 0 <= j < k ==> opts[j].name != "-h"
  {
    if |opts| == 0 then 0
    else if opts[0].name == "-h" then 0
    else 1 + HelpIndex(opts[1..])
  }
}
