// The command line: the loop over `process.argv` that fills the option
// variables, with help and the configuration errors as results.
module Cli {
  import opened Text

  // The option variables the loop fills.
  datatype Options = Options(
    inFilePaths: seq<string>,
    stripComments: bool,
    licenseFilePath: string,
    keepFirstBlockComment: bool,
    outFilePath: string,
    infoComments: bool)

  // What the command line asks for: the help text (the program then exits
  // with status 0), an error message (status -1), or a merge.
  datatype Command = Help | ConfigError(message: string) | Merge(opts: Options)

  function Defaults(): Options {
    Options([], false, "", false, "", false)
  }

  // The tokens the loop recognises; every other token is an input file.
  predicate IsSwitch(t: string) {
    t in {"-h", "--help", "-o", "--out", "-l", "--license", "-s", "--stripcomm", "-i", "--info", "-k", "--keep"}
  }

  // The loop from token `i` of `args` (the arguments after the program
  // name) with the options `o` gathered so far. `-o` and `-l` take the next
  // token whatever it is, and fail when there is none.
  function ParseFrom(args: seq<string>, i: nat, o: Options): (c: Command)
    requires i <= |args|
    ensures c.Merge? ==> c.opts.inFilePaths != []
    decreases |args| - i
  {
    if i == |args| then
      if o.inFilePaths == [] then ConfigError("no input file specified") else Merge(o)
    else
      var t := args[i];
      if t == "-h" || t == "--help" then Help
      else if t == "-o" || t == "--out" then
        if i >= |args| - 1 then ConfigError("no output file specified")
        else ParseFrom(args, i + 2, o.(outFilePath := args[i + 1]))
      else if t == "-l" || t == "--license" then
        if i >= |args| - 1 then ConfigError("no license file specified")
        else ParseFrom(args, i + 2, o.(licenseFilePath := args[i + 1]))
      else if t == "-s" || t == "--stripcomm" then ParseFrom(args, i + 1, o.(stripComments := true))
      else if t == "-i" || t == "--info" then ParseFrom(args, i + 1, o.(infoComments := true))
      else if t == "-k" || t == "--keep" then ParseFrom(args, i + 1, o.(keepFirstBlockComment := true))
      else ParseFrom(args, i + 1, o.(inFilePaths := o.inFilePaths + [t]))
  }

  // No arguments at all print the help.
  function Parse(args: seq<string>): Command {
    if args == [] then Help else ParseFrom(args, 0, Defaults())
  }

  // The loop as written, advancing `i` past an option's value inside the
  // switch and stopping at help or at the first error.
  method ParseArgs(args: seq<string>) returns (c: Command)
    ensures c == Parse(args)
  {
    if |args| == 0 {
      return Help;
    }
    var inFilePaths: seq<string> := [];
    var stripComments := false;
    var licenseFilePath := "";
    var keepFirstBlockComment := false;
    var outFilePath := "";
    var infoComments := false;
    var i := 0;
    while i < |args|
      invariant 0 <= i <= |args|
      invariant ParseFrom(args, i, Options(inFilePaths, stripComments, licenseFilePath,
                                           keepFirstBlockComment, outFilePath, infoComments)) == Parse(args)
    {
      var t := args[i];
      if t == "-h" || t == "--help" {
        return Help;
      } else if t == "-o" || t == "--out" {
        if i >= |args| - 1 {
          return ConfigError("no output file specified");
        }
        i := i + 1;
        outFilePath := args[i];
      } else if t == "-l" || t == "--license" {
        if i >= |args| - 1 {
          return ConfigError("no license file specified");
        }
        i := i + 1;
        licenseFilePath := args[i];
      } else if t == "-s" || t == "--stripcomm" {
        stripComments := true;
      } else if t == "-i" || t == "--info" {
        infoComments := true;
      } else if t == "-k" || t == "--keep" {
        keepFirstBlockComment := true;
      } else {
        inFilePaths := inFilePaths + [t];
      }
      i := i + 1;
    }
    if |inFilePaths| == 0 {
      return ConfigError("no input file specified");
    }
    return Merge(Options(inFilePaths, stripComments, licenseFilePath,
                         keepFirstBlockComment, outFilePath, infoComments));
  }

  // The input files are the remaining tokens in their order: a
  // subsequence of what is left of the command line.
  lemma {:induction false} ParseFromInputs(args: seq<string>, i: nat, o: Options)
    requires i <= |args| && ParseFrom(args, i, o).Merge?
    ensures IsSubseq(ParseFrom(args, i, o).opts.inFilePaths, o.inFilePaths + args[i..])
    decreases |args| - i
  {
    var p := ParseFrom(args, i, o).opts.inFilePaths;
    if i == |args| {
      assert o.inFilePaths + args[i..] == p;
      SubseqSelf(p);
    } else {
      var t := args[i];
      var u := o.inFilePaths;
      if t == "-o" || t == "--out" {
        ParseFromInputs(args, i + 2, o.(outFilePath := args[i + 1]));
        SkipTokens(p, u, args, i, 2);
      } else if t == "-l" || t == "--license" {
        ParseFromInputs(args, i + 2, o.(licenseFilePath := args[i + 1]));
        SkipTokens(p, u, args, i, 2);
      } else if t == "-s" || t == "--stripcomm" {
        ParseFromInputs(args, i + 1, o.(stripComments := true));
        SkipTokens(p, u, args, i, 1);
      } else if t == "-i" || t == "--info" {
        ParseFromInputs(args, i + 1, o.(infoComments := true));
        SkipTokens(p, u, args, i, 1);
      } else if t == "-k" || t == "--keep" {
        ParseFromInputs(args, i + 1, o.(keepFirstBlockComment := true));
        SkipTokens(p, u, args, i, 1);
      } else {
        ParseFromInputs(args, i + 1, o.(inFilePaths := u + [t]));
        assert u + [t] + args[i + 1..] == u + args[i..];
      }
    }
  }

  // Tokens consumed by a switch are left out of the subsequence.
  lemma SkipTokens(p: seq<string>, u: seq<string>, args: seq<string>, i: nat, n: nat)
    requires i + n <= |args| && IsSubseq(p, u + args[i + n..])
    ensures IsSubseq(p, u + args[i..])
  {
    SubseqInsert(p, u, args[i..i + n], args[i + n..]);
    assert u + args[i..i + n] + args[i + n..] == u + args[i..];
  }

  // No input file is one of the recognised switches.
  lemma {:induction false} ParseFromNoSwitch(args: seq<string>, i: nat, o: Options)
    requires i <= |args| && ParseFrom(args, i, o).Merge?
    requires forall k :: 0 <= k < |o.inFilePaths| ==> !IsSwitch(o.inFilePaths[k])
    ensures var p := ParseFrom(args, i, o).opts.inFilePaths;
            forall k :: 0 <= k < |p| ==> !IsSwitch(p[k])
    decreases |args| - i
  {
    if i < |args| {
      var t := args[i];
      if t == "-o" || t == "--out" {
        ParseFromNoSwitch(args, i + 2, o.(outFilePath := args[i + 1]));
      } else if t == "-l" || t == "--license" {
        ParseFromNoSwitch(args, i + 2, o.(licenseFilePath := args[i + 1]));
      } else if t == "-s" || t == "--stripcomm" {
        ParseFromNoSwitch(args, i + 1, o.(stripComments := true));
      } else if t == "-i" || t == "--info" {
        ParseFromNoSwitch(args, i + 1, o.(infoComments := true));
      } else if t == "-k" || t == "--keep" {
        ParseFromNoSwitch(args, i + 1, o.(keepFirstBlockComment := true));
      } else if t != "-h" && t != "--help" {
        var u := o.inFilePaths + [t];
        assert !IsSwitch(t);
        assert forall k :: 0 <= k < |u| ==> !IsSwitch(u[k]) by {
          forall k | 0 <= k < |u| ensures !IsSwitch(u[k]) {
            if k < |o.inFilePaths| { assert u[k] == o.inFilePaths[k]; }
          }
        }
        ParseFromNoSwitch(args, i + 1, o.(inFilePaths := u));
      }
    }
  }

  // A merge names at least one input, every input is a token of the
  // command line in its order, and none of them is a switch.
  lemma ParseInputs(args: seq<string>)
    requires Parse(args).Merge?
    ensures var p := Parse(args).opts.inFilePaths;
            p != [] && IsSubseq(p, args) && forall k :: 0 <= k < |p| ==> !IsSwitch(p[k])
  {
    ParseFromInputs(args, 0, Defaults());
    assert [] + args[0..] == args;
    ParseFromNoSwitch(args, 0, Defaults());
  }

  // The switches that take no value.
  predicate IsFlag(t: string) {
    t in {"-s", "--stripcomm", "-i", "--info", "-k", "--keep"}
  }

  // The tokens of `ts` that are not switches, in their order.
  function NonSwitches(ts: seq<string>): seq<string>
    decreases |ts|
  {
    if ts == [] then []
    else (if IsSwitch(ts[0]) then [] else [ts[0]]) + NonSwitches(ts[1..])
  }

  // What the loop yields from options `o` on the tokens `rest` when they are
  // value-less switches or not switches at all: every non-switch token is
  // an input, in order, and a flag is set exactly when one of its spellings
  // occurs.
  function PlainParse(o: Options, rest: seq<string>): Command {
    var ins := o.inFilePaths + NonSwitches(rest);
    if ins == [] then ConfigError("no input file specified")
    else Merge(o.(inFilePaths := ins,
                  stripComments := o.stripComments || "-s" in rest || "--stripcomm" in rest,
                  infoComments := o.infoComments || "-i" in rest || "--info" in rest,
                  keepFirstBlockComment := o.keepFirstBlockComment || "-k" in rest || "--keep" in rest))
  }

  lemma {:induction false} ParseFromPlain(args: seq<string>, i: nat, o: Options)
    requires i <= |args|
    requires forall k :: i <= k < |args| ==> IsFlag(args[k]) || !IsSwitch(args[k])
    ensures ParseFrom(args, i, o) == PlainParse(o, args[i..])
    decreases |args| - i
  {
    if i == |args| {
      assert args[i..] == [];
      assert o.inFilePaths + NonSwitches([]) == o.inFilePaths;
    } else {
      var t, tail := args[i], args[i + 1..];
      assert args[i..] == [t] + tail;
      if t == "-s" || t == "--stripcomm" {
        ParseFromPlain(args, i + 1, o.(stripComments := true));
        PlainFlag(o, t, tail);
      } else if t == "-i" || t == "--info" {
        ParseFromPlain(args, i + 1, o.(infoComments := true));
        PlainFlag(o, t, tail);
      } else if t == "-k" || t == "--keep" {
        ParseFromPlain(args, i + 1, o.(keepFirstBlockComment := true));
        PlainFlag(o, t, tail);
      } else {
        assert !IsSwitch(t);
        ParseFromPlain(args, i + 1, o.(inFilePaths := o.inFilePaths + [t]));
        PlainInput(o, t, tail);
      }
    }
  }

  // A value-less switch in front sets its flag and adds no input.
  lemma PlainFlag(o: Options, t: string, tail: seq<string>)
    requires IsFlag(t)
    ensures PlainParse(o, [t] + tail) ==
              PlainParse(if t == "-s" || t == "--stripcomm" then o.(stripComments := true)
                         else if t == "-i" || t == "--info" then o.(infoComments := true)
                         else o.(keepFirstBlockComment := true), tail)
  {
    assert ([t] + tail)[1..] == tail;
    InCons(t, tail, "-s"); InCons(t, tail, "--stripcomm");
    InCons(t, tail, "-i"); InCons(t, tail, "--info");
    InCons(t, tail, "-k"); InCons(t, tail, "--keep");
  }

  // A non-switch token in front is the next input and sets no flag.
  lemma PlainInput(o: Options, t: string, tail: seq<string>)
    requires !IsSwitch(t)
    ensures PlainParse(o, [t] + tail) == PlainParse(o.(inFilePaths := o.inFilePaths + [t]), tail)
  {
    assert ([t] + tail)[1..] == tail;
    assert o.inFilePaths + [t] + NonSwitches(tail) == o.inFilePaths + NonSwitches([t] + tail);
    InCons(t, tail, "-s"); InCons(t, tail, "--stripcomm");
    InCons(t, tail, "-i"); InCons(t, tail, "--info");
    InCons(t, tail, "-k"); InCons(t, tail, "--keep");
  }

  lemma InCons(t: string, tail: seq<string>, x: string)
    ensures x in [t] + tail <==> x == t || x in tail
  {
  }

  // Without `-o`, `-l` or help among the tokens, the inputs are exactly the
  // tokens that are not switches, in their order, each flag is set exactly
  // when it is given, and no input at all is the configuration error.
  lemma ParsePlain(args: seq<string>)
    requires args != []
    requires forall k :: 0 <= k < |args| ==> IsFlag(args[k]) || !IsSwitch(args[k])
    ensures Parse(args) ==
              if NonSwitches(args) == [] then ConfigError("no input file specified")
              else Merge(Options(NonSwitches(args),
                                 "-s" in args || "--stripcomm" in args, "",
                                 "-k" in args || "--keep" in args, "",
                                 "-i" in args || "--info" in args))
  {
    ParseFromPlain(args, 0, Defaults());
    assert args[0..] == args;
    assert [] + NonSwitches(args) == NonSwitches(args);
  }

  // `-o` takes the next token even when it is a switch.
  lemma OutTakesSwitch()
    ensures Parse(["-o", "-s", "a.d.ts"]) == Merge(Options(["a.d.ts"], false, "", false, "-s", false))
  {
    var args := ["-o", "-s", "a.d.ts"];
    var o := Defaults().(outFilePath := "-s");
    assert ParseFrom(args, 2, o) == ParseFrom(args, 3, o.(inFilePaths := ["a.d.ts"]));
  }

  // A trailing `-o` or `-l` is an error, even after valid input files.
  lemma TrailingValue()
    ensures Parse(["a.d.ts", "-o"]) == ConfigError("no output file specified")
    ensures Parse(["a.d.ts", "--license"]) == ConfigError("no license file specified")
  {
    var o := Defaults().(inFilePaths := ["a.d.ts"]);
    assert ParseFrom(["a.d.ts", "-o"], 1, o) == ConfigError("no output file specified");
    assert ParseFrom(["a.d.ts", "--license"], 1, o) == ConfigError("no license file specified");
  }

  // Options alone are an error, and help wins over anything after it.
  lemma NoInputs()
    ensures Parse(["-s", "-k"]) == ConfigError("no input file specified")
    ensures Parse(["a.d.ts", "-h", "-o"]) == Help
    ensures Parse([]) == Help
  {
    var o := Defaults().(stripComments := true);
    assert ParseFrom(["-s", "-k"], 1, o) == ParseFrom(["-s", "-k"], 2, o.(keepFirstBlockComment := true));
    assert ParseFrom(["a.d.ts", "-h", "-o"], 1, Defaults().(inFilePaths := ["a.d.ts"])) == Help;
  }
}
