// Properties of the file walker that relate several walks: lines pass
// through unchanged when nothing is stripped or when they hold no comment,
// the keep switch only matters for the first file when stripping, and a
// file that references itself is emitted once.
module WalkFacts {
  import opened Text
  import opened Scanner
  import opened Directive
  import opened Walker

  // Lines `i` onwards hold no library directive.
  predicate NoDirectives(lines: seq<string>, i: nat) {
    forall k :: i <= k < |lines| ==> LibName(lines[k]).None?
  }

  // Without `--stripcomm`, the lines of a file without directives are
  // appended exactly as they are, and the rest of the state is untouched.
  lemma {:induction false} VerbatimLines(env: Env, dir: string, first: bool, lines: seq<string>, i: nat,
                                         inBlock: bool, kept: bool, st: WalkState)
    requires i <= |lines| && !env.cfg.stripComments && NoDirectives(lines, i)
    ensures WalkLines(env, dir, first, lines, i, inBlock, kept, st) == Ok(st.(outLines := st.outLines + lines[i..]))
    decreases |lines| - i
  {
    if i == |lines| {
      assert st.outLines + lines[i..] == st.outLines;
    } else {
      LinesStep(env, dir, first, lines, i, inBlock, kept, st);
      var st1 := st.(outLines := st.outLines + [lines[i]]);
      LinePlain(env, dir, first, lines[i], inBlock, kept, st);
      VerbatimLines(env, dir, first, lines, i + 1, inBlock, kept, st1);
      AppendNext(st.outLines, lines, i);
    }
  }

  lemma AppendNext(out: seq<string>, lines: seq<string>, i: nat)
    requires i < |lines|
    ensures out + [lines[i]] + lines[i + 1..] == out + lines[i..]
  {
    assert lines[i..] == [lines[i]] + lines[i + 1..];
  }

  // With `--stripcomm`, lines outside a comment that hold no `//` and no
  // `/*` are appended exactly as they are too, empty ones included.
  lemma {:induction false} StripPlainLines(env: Env, dir: string, first: bool, lines: seq<string>, i: nat,
                                           kept: bool, st: WalkState)
    requires i <= |lines| && env.cfg.stripComments && NoDirectives(lines, i)
    requires forall k :: i <= k < |lines| ==> NoMarkers(lines[k])
    ensures WalkLines(env, dir, first, lines, i, false, kept, st) == Ok(st.(outLines := st.outLines + lines[i..]))
    decreases |lines| - i
  {
    if i == |lines| {
      assert st.outLines + lines[i..] == st.outLines;
    } else {
      LinesStep(env, dir, first, lines, i, false, kept, st);
      var st1 := st.(outLines := st.outLines + [lines[i]]);
      StripPlainLine(env, dir, first, lines[i], kept, st);
      StripPlainLines(env, dir, first, lines, i + 1, kept, st1);
      AppendNext(st.outLines, lines, i);
    }
  }

  lemma StripPlainLine(env: Env, dir: string, first: bool, line: string, kept: bool, st: WalkState)
    requires env.cfg.stripComments && LibName(line).None? && NoMarkers(line)
    ensures WalkLine(env, dir, first, line, false, kept, st) == LineOk(st.(outLines := st.outLines + [line]), false, kept)
  {
    LinePlain(env, dir, first, line, false, kept, st);
    PlainLine(line, first && env.cfg.keepFirstBlockComment && !kept);
  }

  // A directive line in the middle of a file: the walk of the file it names
  // takes the line's place, and the rest of the file continues from the state
  // that walk leaves, in the same comment state. A file already included adds
  // nothing; a new one adds its start entry first, reads its own path first,
  // keeps everything emitted before, and ends with its end marker when info
  // comments are on; a missing one ends the walk.
  lemma DirectiveInlines(env: Env, dir: string, first: bool, lines: seq<string>, i: nat,
                         inBlock: bool, kept: bool, st: WalkState, name: string, q: string)
    requires i < |lines| && LibName(lines[i]) == Some(name) && q == Resolve(env, dir, name)
    ensures q in st.included ==>
              WalkLines(env, dir, first, lines, i, inBlock, kept, st) ==
              WalkLines(env, dir, first, lines, i + 1, inBlock, kept, st)
    ensures q !in st.included && q !in env.fs ==>
              WalkLines(env, dir, first, lines, i, inBlock, kept, st) == ReadError(q)
    ensures var o := Walk(env, q, st);
            q !in st.included && o.Ok? ==>
              WalkLines(env, dir, first, lines, i, inBlock, kept, st) ==
                WalkLines(env, dir, first, lines, i + 1, inBlock, kept, o.st) &&
              StartsWith(o.st.outLines, st.outLines + [StartEntry(env, q)]) &&
              StartsWith(o.st.trace, st.trace + [q]) &&
              (env.cfg.infoComments ==> o.st.outLines[|o.st.outLines| - 1] == "// END OF " + env.px.basename(q))
  {
    LinesStep(env, dir, first, lines, i, inBlock, kept, st);
    LineDirective(env, dir, first, lines[i], inBlock, kept, st, name);
    if q !in st.included && Walk(env, q, st).Ok? {
      NewWalkShape(env, q, st);
    }
  }

  // The entries a walk into a new path begins and ends with.
  lemma NewWalkShape(env: Env, q: string, st: WalkState)
    requires q !in st.included && Walk(env, q, st).Ok?
    ensures var st' := Walk(env, q, st).st;
            StartsWith(st'.outLines, st.outLines + [StartEntry(env, q)]) &&
            StartsWith(st'.trace, st.trace + [q]) &&
            (env.cfg.infoComments ==> st'.outLines[|st'.outLines| - 1] == "// END OF " + env.px.basename(q))
  {
    var st' := Walk(env, q, st).st;
    WalkNew(env, q, st);
    WalkGrows(env, q, st);
    Extended(st.outLines, StartEntry(env, q), st'.outLines);
    Extended(st.trace, q, st'.trace);
  }

  // A longer sequence that starts with `s` and has `x` right after it
  // starts with `s + [x]`.
  lemma Extended<T>(s: seq<T>, x: T, t: seq<T>)
    requires StartsWith(t, s) && |t| > |s| && t[|s|] == x
    ensures StartsWith(t, s + [x])
  {
    assert t[..|s| + 1] == t[..|s|] + [t[|s|]];
  }

  // A new readable file without directives, not stripped: its start entry,
  // its lines and its end entries are appended, and it alone is read.
  lemma VerbatimFile(env: Env, path: string, st: WalkState)
    requires path !in st.included && path in env.fs && !env.cfg.stripComments
    requires NoDirectives(SplitLines(env.fs[path]), 0)
    ensures Walk(env, path, st) ==
            Ok(WalkState(st.included + {path},
                         st.outLines + [StartEntry(env, path)] + SplitLines(env.fs[path]) + EndEntries(env, path),
                         false, st.trace + [path]))
  {
    var lines := SplitLines(env.fs[path]);
    var st1 := Opened(env, path, st);
    WalkOpened(env, path, st);
    VerbatimLines(env, env.px.dirname(path), st.isFirstFile, lines, 0, false, false, st1);
    assert lines[0..] == lines;
  }

  // The same environment with the `--keep` switch set to `k`.
  function WithKeep(env: Env, k: bool): (e: Env)
    ensures e.fs == env.fs && e.px == env.px && e.cfg.stripComments == env.cfg.stripComments
    ensures e.cfg.infoComments == env.cfg.infoComments && e.cfg.keepFirstBlockComment == k
  {
    env.(cfg := env.cfg.(keepFirstBlockComment := k))
  }

  // `--keep` makes no difference unless comments are stripped and the walk
  // can still open the first file.
  lemma {:induction false} WalkKeep(env: Env, k: bool, path: string, st: WalkState)
    requires !env.cfg.stripComments || !st.isFirstFile
    ensures Walk(WithKeep(env, k), path, st) == Walk(env, path, st)
    decreases Pending(env.fs, st), 0, 0
  {
    if path !in st.included && path in env.fs {
      var env' := WithKeep(env, k);
      var st1 := Opened(env, path, st);
      assert Opened(env', path, st) == st1;
      PendingShrinks(env.fs, st, st1, path);
      WalkOpened(env, path, st);
      WalkOpened(env', path, st);
      WalkLinesKeep(env, k, env.px.dirname(path), st.isFirstFile, SplitLines(env.fs[path]), 0, false, false, st1);
      assert EndEntries(env', path) == EndEntries(env, path);
    }
  }

  lemma {:induction false} WalkLinesKeep(env: Env, k: bool, dir: string, first: bool, lines: seq<string>, i: nat,
                                         inBlock: bool, kept: bool, st: WalkState)
    requires i <= |lines|
    requires !env.cfg.stripComments || (!first && !st.isFirstFile)
    ensures WalkLines(WithKeep(env, k), dir, first, lines, i, inBlock, kept, st) ==
            WalkLines(env, dir, first, lines, i, inBlock, kept, st)
    decreases Pending(env.fs, st), 2, |lines| - i
  {
    if i < |lines| {
      var env' := WithKeep(env, k);
      LinesStep(env, dir, first, lines, i, inBlock, kept, st);
      LinesStep(env', dir, first, lines, i, inBlock, kept, st);
      WalkLineKeep(env, k, dir, first, lines[i], inBlock, kept, st);
      var e := WalkLine(env, dir, first, lines[i], inBlock, kept, st);
      if e.LineOk? {
        WalkLineGrows(env, dir, first, lines[i], inBlock, kept, st);
        PendingMonotone(env.fs, st, e.st);
        WalkLinesKeep(env, k, dir, first, lines, i + 1, e.inBlock, e.kept, e.st);
      }
    }
  }

  lemma {:induction false} WalkLineKeep(env: Env, k: bool, dir: string, first: bool, line: string,
                                        inBlock: bool, kept: bool, st: WalkState)
    requires !env.cfg.stripComments || (!first && !st.isFirstFile)
    ensures WalkLine(WithKeep(env, k), dir, first, line, inBlock, kept, st) ==
            WalkLine(env, dir, first, line, inBlock, kept, st)
    decreases Pending(env.fs, st), 1, 0
  {
    var env' := WithKeep(env, k);
    if LibName(line).Some? {
      DirectiveKeep(env, k, dir, first, line, inBlock, kept, st, LibName(line).value);
    } else {
      LineOutKeep(env, k, first, line, inBlock, kept, st);
      LinePlain(env, dir, first, line, inBlock, kept, st);
      LinePlain(env', dir, first, line, inBlock, kept, st);
    }
  }

  lemma {:induction false} DirectiveKeep(env: Env, k: bool, dir: string, first: bool, line: string,
                                         inBlock: bool, kept: bool, st: WalkState, name: string)
    requires !env.cfg.stripComments || !st.isFirstFile
    requires LibName(line) == Some(name)
    ensures WalkLine(WithKeep(env, k), dir, first, line, inBlock, kept, st) ==
            WalkLine(env, dir, first, line, inBlock, kept, st)
    decreases Pending(env.fs, st), 0, 1
  {
    var env' := WithKeep(env, k);
    var p := Resolve(env, dir, name);
    assert Resolve(env', dir, name) == p;
    WalkKeep(env, k, p, st);
    LineDirective(env, dir, first, line, inBlock, kept, st, name);
    LineDirective(env', dir, first, line, inBlock, kept, st, name);
  }

  lemma LineOutKeep(env: Env, k: bool, first: bool, line: string, inBlock: bool, kept: bool, st: WalkState)
    requires !env.cfg.stripComments || !first
    ensures LineOut(WithKeep(env, k), first, line, inBlock, kept, st) == LineOut(env, first, line, inBlock, kept, st)
  {
    var env' := WithKeep(env, k);
    if env.cfg.stripComments {
      assert (first && env'.cfg.keepFirstBlockComment && !kept) == (first && env.cfg.keepFirstBlockComment && !kept);
    }
  }

  // A file whose one line is a directive resolving to the file itself is
  // read once; without info comments only its start entry is appended.
  lemma SelfReference(env: Env, path: string, st: WalkState, name: string)
    requires path !in st.included && path in env.fs && !env.cfg.infoComments
    requires '\n' !in env.fs[path] && LibName(env.fs[path]) == Some(name)
    requires Resolve(env, env.px.dirname(path), name) == path
    ensures Walk(env, path, st) == Ok(Opened(env, path, st))
  {
    var st1 := Opened(env, path, st);
    SelfLine(env, env.px.dirname(path), st.isFirstFile, env.fs[path], st1, name);
    WalkOpened(env, path, st);
    NoEndEntries(env, path, st1);
  }

  lemma NoEndEntries(env: Env, path: string, st: WalkState)
    requires !env.cfg.infoComments
    ensures st.(outLines := st.outLines + EndEntries(env, path)) == st
  {
    assert st.outLines + [] == st.outLines;
  }

  // A file's one line naming an already included file leaves the state as it is.
  lemma SelfLine(env: Env, dir: string, first: bool, line: string, st: WalkState, name: string)
    requires '\n' !in line && LibName(line) == Some(name) && Resolve(env, dir, name) in st.included
    ensures WalkLines(env, dir, first, SplitLines(line), 0, false, false, st) == Ok(st)
  {
    assert SplitLines(line) == [line];
    assert Walk(env, Resolve(env, dir, name), st) == Ok(st);
    LineDirective(env, dir, first, line, false, false, st, name);
    LinesStep(env, dir, first, [line], 0, false, false, st);
    assert WalkLines(env, dir, first, [line], 1, false, false, st) == Ok(st);
  }
}
