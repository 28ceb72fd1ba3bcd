// The top level of a run: the license header is read first, every input
// file is walked in order, and the output is the license followed by the
// collected entries joined with newlines.
module Output {
  import opened Text
  import opened Directive
  import opened Walker
  import opened WalkFacts
  import opened Cli

  function SettingsOf(o: Options): Settings {
    Settings(o.stripComments, o.keepFirstBlockComment, o.infoComments)
  }

  // `processFile` on each input file in turn, stopping at the first read error.
  function WalkAll(env: Env, paths: seq<string>, st: WalkState): (r: Outcome)
    ensures r.ReadError? ==> r.path !in env.fs
    decreases |paths|
  {
    if paths == [] then Ok(st)
    else match Walk(env, paths[0], st)
      case ReadError(p) => ReadError(p)
      case Ok(st1) => WalkAll(env, paths[1..], st1)
  }

  // The contents the program prints or writes, or the file it could not
  // read (the license header or a library file); a read error discards
  // all output.
  datatype RunResult = Contents(text: string) | LicenseError(path: string) | LibraryError(path: string)

  function MergeSpec(o: Options, fs: map<string, string>, px: PathOps): (r: RunResult)
    ensures r.LicenseError? <==> o.licenseFilePath != "" && o.licenseFilePath !in fs
    ensures r.LicenseError? ==> r.path == o.licenseFilePath
    ensures r.LibraryError? ==> r.path !in fs
  {
    var env := Env(fs, SettingsOf(o), px);
    if o.licenseFilePath != "" && o.licenseFilePath !in fs then LicenseError(o.licenseFilePath)
    else
      var license := if o.licenseFilePath != "" then fs[o.licenseFilePath] else "";
      match WalkAll(env, o.inFilePaths, Initial())
      case ReadError(p) => LibraryError(p)
      case Ok(st) => Contents(license + Join(st.outLines, "\n"))
  }

  // The program after the argument loop, with one `Merger` for the run.
  method Run(o: Options, fs: map<string, string>, px: PathOps) returns (r: RunResult)
    ensures r == MergeSpec(o, fs, px)
  {
    var outContents := "";
    if o.licenseFilePath != "" {
      if o.licenseFilePath !in fs {
        return LicenseError(o.licenseFilePath);
      }
      outContents := fs[o.licenseFilePath];
    }
    var env := Env(fs, SettingsOf(o), px);
    var m := new Merger(env);
    ghost var goal := WalkAll(env, o.inFilePaths, Initial());
    assert o.inFilePaths[0..] == o.inFilePaths;
    var i := 0;
    while i < |o.inFilePaths|
      invariant 0 <= i <= |o.inFilePaths|
      invariant WalkAll(env, o.inFilePaths[i..], m.State()) == goal
    {
      assert o.inFilePaths[i..][1..] == o.inFilePaths[i + 1..];
      var ok, missing := m.ProcessFile(o.inFilePaths[i]);
      if !ok {
        return LibraryError(missing);
      }
      i := i + 1;
    }
    outContents := outContents + Join(m.outLines, "\n");
    return Contents(outContents);
  }

  // A completed run is a walk in the sense of `Grows`, and every input
  // file ends up included.
  lemma {:induction false} WalkAllGrows(env: Env, paths: seq<string>, st: WalkState)
    requires WalkAll(env, paths, st).Ok?
    ensures var st' := WalkAll(env, paths, st).st;
            Grows(env.fs, st, st') && forall k :: 0 <= k < |paths| ==> paths[k] in st'.included
    decreases |paths|
  {
    if paths == [] {
      GrowsRefl(env.fs, st);
    } else {
      var st1 := Walk(env, paths[0], st).st;
      WalkGrows(env, paths[0], st);
      WalkAllGrows(env, paths[1..], st1);
      var st' := WalkAll(env, paths[1..], st1).st;
      GrowsTrans(env.fs, st, st1, st');
      forall k | 0 <= k < |paths| ensures paths[k] in st'.included {
        if k > 0 {
          assert paths[k] == paths[1..][k - 1];
        }
      }
    }
  }

  // Over a whole run each file is read at most once: the paths read have
  // no repetition, all were readable, they are exactly the included
  // paths, and they take in every input file.
  lemma ReadOnce(env: Env, paths: seq<string>)
    requires WalkAll(env, paths, Initial()).Ok?
    ensures var st := WalkAll(env, paths, Initial()).st;
            NoDup(st.trace) && st.included == Elems(st.trace) &&
            (forall k :: 0 <= k < |st.trace| ==> st.trace[k] in env.fs) &&
            (forall k :: 0 <= k < |paths| ==> paths[k] in st.included)
  {
    WalkAllGrows(env, paths, Initial());
    var st := WalkAll(env, paths, Initial()).st;
    assert st.trace[0..] == st.trace;
  }

  // Naming an input file twice is the same as naming it once.
  lemma RepeatedInput(env: Env, path: string, st: WalkState)
    ensures WalkAll(env, [path, path], st) == WalkAll(env, [path], st)
  {
    assert [path, path][1..] == [path];
    assert [path][1..] == [];
    var o := Walk(env, path, st);
    if o.Ok? {
      assert WalkAll(env, [path], o.st) == Walk(env, path, o.st);
    }
  }

  // With a license file the output starts with its contents.
  lemma LicenseFirst(o: Options, fs: map<string, string>, px: PathOps)
    requires MergeSpec(o, fs, px).Contents? && o.licenseFilePath != ""
    ensures o.licenseFilePath in fs && StartsWith(MergeSpec(o, fs, px).text, fs[o.licenseFilePath])
  {
    var st := WalkAll(Env(fs, SettingsOf(o), px), o.inFilePaths, Initial()).st;
    var license := fs[o.licenseFilePath];
    assert (license + Join(st.outLines, "\n"))[..|license|] == license;
  }

  lemma {:induction false} WalkAllKeep(env: Env, k: bool, paths: seq<string>, st: WalkState)
    requires !env.cfg.stripComments
    ensures WalkAll(WithKeep(env, k), paths, st) == WalkAll(env, paths, st)
    decreases |paths|
  {
    if paths != [] {
      WalkKeep(env, k, paths[0], st);
      var o := Walk(env, paths[0], st);
      if o.Ok? {
        WalkAllKeep(env, k, paths[1..], o.st);
      }
    }
  }

  // Without `--stripcomm`, `--keep` changes nothing in the result.
  lemma KeepNeedsStrip(o: Options, fs: map<string, string>, px: PathOps, k: bool)
    requires !o.stripComments
    ensures MergeSpec(o.(keepFirstBlockComment := k), fs, px) == MergeSpec(o, fs, px)
  {
    var env := Env(fs, SettingsOf(o), px);
    assert Env(fs, SettingsOf(o.(keepFirstBlockComment := k)), px) == WithKeep(env, k);
    WalkAllKeep(env, k, o.inFilePaths, Initial());
  }

  // One input without directives or `\r\n`, no license, no switches: the
  // output is an empty line, the empty start entry, then the file as it is.
  lemma SingleFileVerbatim(o: Options, fs: map<string, string>, px: PathOps, path: string)
    requires o == Options([path], false, "", false, "", false)
    requires path in fs && NoCrLf(fs[path]) && NoDirectives(SplitLines(fs[path]), 0)
    ensures MergeSpec(o, fs, px) == Contents("\n\n" + fs[path])
  {
    var env := Env(fs, SettingsOf(o), px);
    VerbatimFile(env, path, Initial());
    var lines := SplitLines(fs[path]);
    var st := Walk(env, path, Initial()).st;
    assert st.outLines == ["\n"] + lines by {
      assert StartEntry(env, path) == "\n";
      assert EndEntries(env, path) == [];
      assert [] + ["\n"] + lines + [] == ["\n"] + lines;
    }
    assert WalkAll(env, [path], Initial()) == Ok(st) by {
      assert [path][1..] == [];
    }
    calc {
      Join(st.outLines, "\n");
      { JoinCons("\n", lines, "\n"); }
      "\n" + "\n" + Join(lines, "\n");
      { JoinSplitLines(fs[path]); }
      "\n" + "\n" + fs[path];
    }
    assert "" + Join(st.outLines, "\n") == "\n\n" + fs[path];
  }
}
