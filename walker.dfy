// The file walker `processFile`: a depth-first walk over the library
// reference directives of declaration files, appending each file's lines
// (optionally stripped of comments) to one output buffer, each file once.
module Walker {
  import opened Text
  import opened Scanner
  import opened Directive

  // The command-line switches the walk consults.
  datatype Settings = Settings(stripComments: bool, keepFirstBlockComment: bool, infoComments: bool)

  // Node's `path.dirname`, `path.join`, `path.basename` and `path.isAbsolute`,
  // left abstract.
  datatype PathOps = PathOps(
    dirname: string -> string,
    join: (string, string) -> string,
    basename: string -> string,
    isAbsolute: string -> bool)

  // The readable files (path to content), the settings and the path operations.
  datatype Env = Env(fs: map<string, string>, cfg: Settings, px: PathOps)

  // The run-wide state: `includedFilePaths`, `outLines`, `isFirstFile`, and
  // `trace`, the paths read so far in the order they were read.
  datatype WalkState = WalkState(included: set<string>, outLines: seq<string>, isFirstFile: bool, trace: seq<string>)

  // A walk either completes or stops at the first path it cannot read.
  datatype Outcome = Ok(st: WalkState) | ReadError(path: string)

  function Initial(): WalkState {
    WalkState({}, [], true, [])
  }

  // The entry a file starts with: an empty line, then the start marker if asked for.
  function StartEntry(env: Env, path: string): string {
    "\n" + (if env.cfg.infoComments then "// START OF " + env.px.basename(path) else "")
  }

  // The entries a file ends with.
  function EndEntries(env: Env, path: string): seq<string> {
    if env.cfg.infoComments then ["// END OF " + env.px.basename(path)] else []
  }

  // The path a directive naming `name` in directory `dir` refers to.
  function Resolve(env: Env, dir: string, name: string): string {
    var inc := Normalize(name);
    if env.px.isAbsolute(inc) then inc else env.px.join(dir, inc)
  }

  function Elems(s: seq<string>): set<string> {
    set k | 0 <= k < |s| :: s[k]
  }

  predicate NoDup(s: seq<string>) {
    forall i, j :: 0 <= i < j < |s| ==> s[i] != s[j]
  }

  // What a completed walk from `st` to `st'` did: it only appended to the
  // output and to the trace; every path it read was readable, not included
  // before, and read once; the newly included paths are exactly those it
  // read; and `isFirstFile` was cleared exactly when it read something.
  predicate Grows(fs: map<string, string>, st: WalkState, st': WalkState) {
    StartsWith(st'.outLines, st.outLines) &&
    StartsWith(st'.trace, st.trace) &&
    var added := st'.trace[|st.trace|..];
    NoDup(added) &&
    (forall k :: 0 <= k < |added| ==> added[k] in fs && added[k] !in st.included) &&
    st'.included == st.included + Elems(added) &&
    st'.isFirstFile == (st.isFirstFile && added == [])
  }

  // The measure the walk decreases: the readable paths not yet included.
  function Pending(fs: map<string, string>, st: WalkState): nat {
    |fs.Keys - st.included|
  }

  // `processFile(path)` from the state `st`.
  function Walk(env: Env, path: string, st: WalkState): (r: Outcome)
    ensures path in st.included ==> r == Ok(st)
    ensures r.ReadError? ==> r.path !in env.fs
    ensures r.Ok? ==> st.included <= r.st.included && path in r.st.included
    decreases Pending(env.fs, st), 0, 0
  {
    if path in st.included then Ok(st)
    else if path !in env.fs then ReadError(path)
    else
      var st1 := Opened(env, path, st);
      PendingShrinks(env.fs, st, st1, path);
      match WalkLines(env, env.px.dirname(path), st.isFirstFile, SplitLines(env.fs[path]), 0, false, false, st1)
      case ReadError(p) => ReadError(p)
      case Ok(st2) => Ok(st2.(outLines := st2.outLines + EndEntries(env, path)))
  }

  // The state once `path` is marked as included, read, and its start entry
  // appended; `isFirstFile` is now false.
  function Opened(env: Env, path: string, st: WalkState): WalkState {
    WalkState(st.included + {path}, st.outLines + [StartEntry(env, path)], false, st.trace + [path])
  }

  // What handling one line leaves: the new state with the file's
  // block-comment state and whether its first block comment was kept, or
  // the path that could not be read.
  datatype LineResult = LineOk(st: WalkState, inBlock: bool, kept: bool) | LineError(path: string)

  // The `forEach` over the lines of a file in directory `dir`, from line
  // `i` on, with the block-comment state `inBlock` and whether the first
  // block comment was already kept. `first` is `thisIsFirstFile`.
  function WalkLines(env: Env, dir: string, first: bool, lines: seq<string>, i: nat,
                     inBlock: bool, kept: bool, st: WalkState): (r: Outcome)
    requires i <= |lines|
    ensures r.ReadError? ==> r.path !in env.fs
    ensures r.Ok? ==> st.included <= r.st.included
    decreases Pending(env.fs, st), 2, |lines| - i
  {
    if i == |lines| then Ok(st)
    else
      match WalkLine(env, dir, first, lines[i], inBlock, kept, st)
      case LineError(p) => ReadError(p)
      case LineOk(st1, inBlock1, kept1) =>
        PendingMonotone(env.fs, st, st1);
        WalkLines(env, dir, first, lines, i + 1, inBlock1, kept1, st1)
  }

  // The `forEach` callback on one line: a directive walks the file it
  // names, any other line goes to the output.
  function WalkLine(env: Env, dir: string, first: bool, line: string,
                    inBlock: bool, kept: bool, st: WalkState): (r: LineResult)
    ensures r.LineError? ==> r.path !in env.fs
    ensures r.LineOk? ==> st.included <= r.st.included
    decreases Pending(env.fs, st), 1, 0
  {
    match LibName(line)
    case Some(name) =>
      (match Walk(env, Resolve(env, dir, name), st)
       case ReadError(p) => LineError(p)
       case Ok(st1) => LineOk(st1, inBlock, kept))
    case None =>
      var (st1, inBlock1, kept1) := LineOut(env, first, line, inBlock, kept, st);
      LineOk(st1, inBlock1, kept1)
  }

  // A line that is not a directive: appended as it is, or cleaned and
  // appended unless the scanner drops it. The first block comment is
  // offered for keeping only in the first file and only until one was kept.
  function LineOut(env: Env, first: bool, line: string, inBlock: bool, kept: bool, st: WalkState): (e: (WalkState, bool, bool))
    ensures StartsWith(e.0.outLines, st.outLines) && e.0 == st.(outLines := e.0.outLines)
    ensures |e.0.outLines| <= |st.outLines| + 1
  {
    if env.cfg.stripComments then
      var c := Scan(line, inBlock, first && env.cfg.keepFirstBlockComment && !kept);
      (if c.dropped then st else st.(outLines := st.outLines + [c.line]), c.inBlock, kept || c.keptClosed)
    else
      (st.(outLines := st.outLines + [line]), inBlock, kept)
  }

  // Every completed walk only appends, reads each path it includes once and
  // in order, and clears `isFirstFile` exactly when it reads something.
  lemma {:induction false} WalkGrows(env: Env, path: string, st: WalkState)
    requires Walk(env, path, st).Ok?
    ensures Grows(env.fs, st, Walk(env, path, st).st)
    decreases Pending(env.fs, st), 0, 0
  {
    if path in st.included {
      GrowsRefl(env.fs, st);
    } else {
      var st1 := Opened(env, path, st);
      PendingShrinks(env.fs, st, st1, path);
      OpenedGrows(env, path, st);
      var lines := SplitLines(env.fs[path]);
      var st2 := WalkLines(env, env.px.dirname(path), st.isFirstFile, lines, 0, false, false, st1).st;
      WalkLinesGrows(env, env.px.dirname(path), st.isFirstFile, lines, 0, false, false, st1);
      var st3 := st2.(outLines := st2.outLines + EndEntries(env, path));
      GrowsOutput(env.fs, st2, st3);
      GrowsTrans(env.fs, st, st1, st2);
      GrowsTrans(env.fs, st, st2, st3);
    }
  }

  lemma {:induction false} WalkLinesGrows(env: Env, dir: string, first: bool, lines: seq<string>, i: nat,
                                          inBlock: bool, kept: bool, st: WalkState)
    requires i <= |lines| && WalkLines(env, dir, first, lines, i, inBlock, kept, st).Ok?
    ensures Grows(env.fs, st, WalkLines(env, dir, first, lines, i, inBlock, kept, st).st)
    decreases Pending(env.fs, st), 2, |lines| - i
  {
    if i == |lines| {
      GrowsRefl(env.fs, st);
    } else {
      var e := WalkLine(env, dir, first, lines[i], inBlock, kept, st);
      WalkLineGrows(env, dir, first, lines[i], inBlock, kept, st);
      PendingMonotone(env.fs, st, e.st);
      WalkLinesGrows(env, dir, first, lines, i + 1, e.inBlock, e.kept, e.st);
      GrowsTrans(env.fs, st, e.st, WalkLines(env, dir, first, lines, i + 1, e.inBlock, e.kept, e.st).st);
    }
  }

  lemma {:induction false} WalkLineGrows(env: Env, dir: string, first: bool, line: string,
                                         inBlock: bool, kept: bool, st: WalkState)
    requires WalkLine(env, dir, first, line, inBlock, kept, st).LineOk?
    ensures Grows(env.fs, st, WalkLine(env, dir, first, line, inBlock, kept, st).st)
    decreases Pending(env.fs, st), 1, 0
  {
    match LibName(line)
    case Some(name) =>
      WalkGrows(env, Resolve(env, dir, name), st);
    case None =>
      GrowsOutput(env.fs, st, LineOut(env, first, line, inBlock, kept, st).0);
  }

  // A walk into a path not yet included reads that path first, emits its
  // start entry first and, with info comments on, its end marker last.
  lemma WalkNew(env: Env, path: string, st: WalkState)
    requires path !in st.included && Walk(env, path, st).Ok?
    ensures var st' := Walk(env, path, st).st;
            |st'.trace| > |st.trace| && st'.trace[|st.trace|] == path &&
            |st'.outLines| > |st.outLines| && st'.outLines[|st.outLines|] == StartEntry(env, path) &&
            (env.cfg.infoComments ==> st'.outLines[|st'.outLines| - 1] == "// END OF " + env.px.basename(path))
  {
    var st1 := Opened(env, path, st);
    WalkOpened(env, path, st);
    PendingShrinks(env.fs, st, st1, path);
    WalkLinesGrows(env, env.px.dirname(path), st.isFirstFile, SplitLines(env.fs[path]), 0, false, false, st1);
    var st2 := WalkLines(env, env.px.dirname(path), st.isFirstFile, SplitLines(env.fs[path]), 0, false, false, st1).st;
    assert st2.outLines[..|st1.outLines|] == st1.outLines;
    assert st2.trace[..|st1.trace|] == st1.trace;
    assert st2.outLines[|st.outLines|] == st1.outLines[|st.outLines|];
    assert st2.trace[|st.trace|] == st1.trace[|st.trace|];
  }

  // One step of `WalkLines`.
  lemma LinesStep(env: Env, dir: string, first: bool, lines: seq<string>, i: nat,
                  inBlock: bool, kept: bool, st: WalkState)
    requires i < |lines|
    ensures var e := WalkLine(env, dir, first, lines[i], inBlock, kept, st);
            WalkLines(env, dir, first, lines, i, inBlock, kept, st) ==
              if e.LineOk? then WalkLines(env, dir, first, lines, i + 1, e.inBlock, e.kept, e.st) else ReadError(e.path)
  {
  }

  // A directive line walks the file it names.
  lemma LineDirective(env: Env, dir: string, first: bool, line: string,
                      inBlock: bool, kept: bool, st: WalkState, name: string)
    requires LibName(line) == Some(name)
    ensures var o := Walk(env, Resolve(env, dir, name), st);
            WalkLine(env, dir, first, line, inBlock, kept, st) ==
              if o.Ok? then LineOk(o.st, inBlock, kept) else LineError(o.path)
  {
  }

  // Any other line goes through `LineOut`.
  lemma LinePlain(env: Env, dir: string, first: bool, line: string,
                  inBlock: bool, kept: bool, st: WalkState)
    requires LibName(line).None?
    ensures var e := LineOut(env, first, line, inBlock, kept, st);
            WalkLine(env, dir, first, line, inBlock, kept, st) == LineOk(e.0, e.1, e.2)
  {
  }

  // One step of `Walk` on a readable path not yet included.
  lemma WalkOpened(env: Env, path: string, st: WalkState)
    requires path !in st.included && path in env.fs
    ensures var o := WalkLines(env, env.px.dirname(path), st.isFirstFile, SplitLines(env.fs[path]), 0, false, false, Opened(env, path, st));
            Walk(env, path, st) == if o.Ok? then Ok(o.st.(outLines := o.st.outLines + EndEntries(env, path))) else o
  {
  }

  lemma GrowsRefl(fs: map<string, string>, st: WalkState)
    ensures Grows(fs, st, st)
  {
    assert st.trace[|st.trace|..] == [];
    assert Elems([]) == {};
  }

  // Appending to the output alone is a step of a walk.
  lemma GrowsOutput(fs: map<string, string>, st: WalkState, st': WalkState)
    requires StartsWith(st'.outLines, st.outLines)
    requires st' == st.(outLines := st'.outLines)
    ensures Grows(fs, st, st')
  {
    assert st.trace[|st.trace|..] == [];
    assert Elems([]) == {};
  }

  lemma OpenedGrows(env: Env, path: string, st: WalkState)
    requires path in env.fs && path !in st.included
    ensures Grows(env.fs, st, Opened(env, path, st))
  {
    var st' := Opened(env, path, st);
    assert st'.trace[|st.trace|..] == [path];
    assert [path][0] == path;
    assert Elems([path]) == {path};
    assert st'.outLines[..|st.outLines|] == st.outLines;
    assert st'.trace[..|st.trace|] == st.trace;
  }

  lemma GrowsTrans(fs: map<string, string>, s1: WalkState, s2: WalkState, s3: WalkState)
    requires Grows(fs, s1, s2) && Grows(fs, s2, s3)
    ensures Grows(fs, s1, s3)
  {
    var a := s2.trace[|s1.trace|..];
    var b := s3.trace[|s2.trace|..];
    assert StartsWith(s3.trace, s1.trace) by {
      assert s3.trace[..|s1.trace|] == s3.trace[..|s2.trace|][..|s1.trace|];
    }
    assert StartsWith(s3.outLines, s1.outLines) by {
      assert s3.outLines[..|s1.outLines|] == s3.outLines[..|s2.outLines|][..|s1.outLines|];
    }
    var ab := s3.trace[|s1.trace|..];
    assert ab == a + b by {
      assert s3.trace == s1.trace + a + b;
    }
    ElemsConcat(a, b);
    NoDupConcat(a, b, s2.included);
  }

  lemma ElemsConcat(a: seq<string>, b: seq<string>)
    ensures Elems(a + b) == Elems(a) + Elems(b)
  {
    var ab := a + b;
    forall x | x in Elems(ab) ensures x in Elems(a) + Elems(b) {
      var k :| 0 <= k < |ab| && ab[k] == x;
      if k >= |a| {
        assert b[k - |a|] == x;
      }
    }
    forall x | x in Elems(a) + Elems(b) ensures x in Elems(ab) {
      if x in Elems(a) {
        var k :| 0 <= k < |a| && a[k] == x;
        assert ab[k] == x;
      } else {
        var k :| 0 <= k < |b| && b[k] == x;
        assert ab[|a| + k] == x;
      }
    }
  }

  // Two duplicate-free runs stay so joined when the second avoids a set holding the first.
  lemma NoDupConcat(a: seq<string>, b: seq<string>, seen: set<string>)
    requires NoDup(a) && NoDup(b) && Elems(a) <= seen
    requires forall k :: 0 <= k < |b| ==> b[k] !in seen
    ensures NoDup(a + b)
  {
    var ab := a + b;
    forall i, j | 0 <= i < j < |ab| ensures ab[i] != ab[j] {
      if j >= |a| && i < |a| {
        assert ab[i] == a[i] && a[i] in Elems(a);
        assert ab[j] == b[j - |a|];
      } else if i >= |a| {
        assert ab[i] == b[i - |a|] && ab[j] == b[j - |a|];
      }
    }
  }

  // The measure never increases along a walk, and drops once `path` is included.
  lemma PendingMonotone(fs: map<string, string>, st: WalkState, st': WalkState)
    requires st.included <= st'.included
    ensures Pending(fs, st') <= Pending(fs, st)
  {
    SubsetCard(fs.Keys - st'.included, fs.Keys - st.included);
  }

  lemma PendingShrinks(fs: map<string, string>, st: WalkState, st': WalkState, path: string)
    requires st.included <= st'.included && path in fs && path !in st.included && path in st'.included
    ensures Pending(fs, st') < Pending(fs, st)
  {
    var x, y := fs.Keys - st'.included, fs.Keys - st.included;
    SubsetCard(x, y - {path});
  }

  lemma {:induction false} SubsetCard<T>(x: set<T>, y: set<T>)
    requires x <= y
    ensures |x| <= |y|
    decreases |y|
  {
    if x != {} {
      var e :| e in x;
      SubsetCard(x - {e}, y - {e});
    }
  }

  // `processFile` and the globals it updates.
  class Merger {
    const env: Env
    var includedFilePaths: set<string>
    var outLines: seq<string>
    var isFirstFile: bool
    // The paths read so far, in order; not part of the program's state.
    ghost var trace: seq<string>

    ghost function State(): WalkState
      reads this
    {
      WalkState(includedFilePaths, outLines, isFirstFile, trace)
    }

    constructor(env: Env)
      ensures this.env == env && State() == Initial()
    {
      this.env := env;
      includedFilePaths := {};
      outLines := [];
      isFirstFile := true;
      trace := [];
    }

    // A file that cannot be read ends the run: the result is then false,
    // `missing` is the path that failed and the state is of no further use.
    method ProcessFile(filePath: string) returns (ok: bool, missing: string)
      modifies this
      ensures ok == Walk(env, filePath, old(State())).Ok?
      ensures ok ==> State() == Walk(env, filePath, old(State())).st
      ensures !ok ==> missing == Walk(env, filePath, old(State())).path
      decreases Pending(env.fs, State()), 0
    {
      ghost var st0 := State();
      missing := "";
      if filePath in includedFilePaths {
        return true, missing;
      }
      var thisIsFirstFile := isFirstFile;
      isFirstFile := false;
      includedFilePaths := includedFilePaths + {filePath};
      var fileDir := env.px.dirname(filePath);
      if filePath !in env.fs {
        return false, filePath;
      }
      var data := env.fs[filePath];
      trace := trace + [filePath];
      outLines := outLines + [StartEntry(env, filePath)];
      var lines := SplitLines(data);
      ghost var st1 := State();
      assert st1 == Opened(env, filePath, st0);
      WalkOpened(env, filePath, st0);
      PendingShrinks(env.fs, st0, st1, filePath);
      ok, missing := ProcessLines(fileDir, thisIsFirstFile, lines);
      if !ok {
        return;
      }
      if env.cfg.infoComments {
        outLines := outLines + ["// END OF " + env.px.basename(filePath)];
      }
    }

    // The `forEach` over the lines of one file.
    method ProcessLines(fileDir: string, thisIsFirstFile: bool, lines: seq<string>) returns (ok: bool, missing: string)
      modifies this
      ensures var r := WalkLines(env, fileDir, thisIsFirstFile, lines, 0, false, false, old(State()));
              ok == r.Ok? && (ok ==> State() == r.st) && (!ok ==> missing == r.path)
      decreases Pending(env.fs, State()), 2
    {
      ghost var st1 := State();
      ghost var goal := WalkLines(env, fileDir, thisIsFirstFile, lines, 0, false, false, st1);
      var inBlockComment := false;
      var firstBlockCommentKept := false;
      var i := 0;
      while i < |lines|
        invariant 0 <= i <= |lines|
        invariant st1.included <= includedFilePaths
        invariant goal == WalkLines(env, fileDir, thisIsFirstFile, lines, i, inBlockComment, firstBlockCommentKept, State())
      {
        SubsetCard(env.fs.Keys - includedFilePaths, env.fs.Keys - st1.included);
        ghost var st := State();
        LinesStep(env, fileDir, thisIsFirstFile, lines, i, inBlockComment, firstBlockCommentKept, st);
        var found;
        found, missing, inBlockComment, firstBlockCommentKept :=
          ProcessLine(fileDir, thisIsFirstFile, lines[i], inBlockComment, firstBlockCommentKept);
        if !found {
          return false, missing;
        }
        assert st.included <= includedFilePaths;
        i := i + 1;
      }
      return true, "";
    }

    // The `forEach` callback, with the file's `inBlockComment` and
    // `firstBlockCommentKept` passed in and out.
    method ProcessLine(fileDir: string, thisIsFirstFile: bool, line: string,
                       inBlockComment: bool, firstBlockCommentKept: bool)
      returns (ok: bool, missing: string, inBlock: bool, kept: bool)
      modifies this
      ensures var r := WalkLine(env, fileDir, thisIsFirstFile, line, inBlockComment, firstBlockCommentKept, old(State()));
              ok == r.LineOk? && (ok ==> State() == r.st && inBlock == r.inBlock && kept == r.kept) &&
              (!ok ==> missing == r.path)
      decreases Pending(env.fs, State()), 1
    {
      inBlock, kept := inBlockComment, firstBlockCommentKept;
      missing := "";
      var refInclude := LibName(line);
      if refInclude.Some? {
        var incFilePath := Normalize(refInclude.value);
        ok, missing := ProcessFile(if env.px.isAbsolute(incFilePath) then incFilePath else env.px.join(fileDir, incFilePath));
      } else if env.cfg.stripComments {
        var r := GetCommentFreeLine(line, inBlock, thisIsFirstFile && env.cfg.keepFirstBlockComment && !kept);
        inBlock := r.inBlock;
        if r.keptClosed {
          kept := true;
        }
        if !r.dropped {
          outLines := outLines + [r.line];
        }
        ok := true;
      } else {
        outLines := outLines + [line];
        ok := true;
      }
    }
  }
}
