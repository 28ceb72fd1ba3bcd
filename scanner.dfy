// The comment scanner `getCommentFreeLine`: one pass over a line with one
// character of lookback, removing `//` and `/* ... */` comments and, on
// request, keeping the first block comment with its delimiters.
module Scanner {
  import opened Text

  // The scanner's four results: the cleaned line, whether a block comment
  // is still open after the line, whether the walker drops the line, and
  // whether a preserved block comment closed on this line.
  datatype ScanResult = ScanResult(line: string, inBlock: bool, dropped: bool, keptClosed: bool)

  // The loop variables between two characters. `prevC` is "" or one
  // character; `out` is the concatenation of what was pushed so far.
  datatype ScanState = ScanState(
    out: string,
    prevC: string,
    inBlock: bool,
    keeping: bool,
    kept: bool,
    commentExists: bool)

  // One character either continues the scan or ends it (a line comment).
  datatype Step = Next(next: ScanState) | Stop(last: ScanState)

  function Start(inBlock: bool, keep: bool): ScanState {
    ScanState("", "", inBlock, inBlock && keep, false, inBlock)
  }

  // The loop body on character `c`.
  function StepOn(st: ScanState, c: char, keep: bool): Step {
    if st.inBlock then
      if st.prevC == "*" && c == '/' then
        Next(st.(inBlock := false,
                 kept := st.kept || st.keeping,
                 out := if st.keeping then st.out + "*/" else st.out,
                 keeping := false,
                 prevC := ""))
      else if !st.keeping then
        Next(st.(prevC := [c]))
      else
        Next(st.(out := st.out + st.prevC, prevC := [c]))
    else if st.prevC == "/" && c == '/' then
      Stop(st.(prevC := "", commentExists := true))
    else if st.prevC == "/" && c == '*' then
      Next(st.(inBlock := true,
               prevC := "",
               commentExists := true,
               keeping := if keep && !st.kept then true else st.keeping,
               out := if keep && !st.kept then st.out + "/*" else st.out))
    else
      Next(st.(out := st.out + st.prevC, prevC := [c]))
  }

  // After the loop: the pending character is pushed unless a block comment
  // is open, and the results are read off.
  function Finish(st: ScanState): ScanResult {
    var out := if !st.inBlock && !st.keeping then st.out + st.prevC else st.out;
    ScanResult(out, st.inBlock, st.commentExists && out == "", st.kept)
  }

  // Scanning the rest `s` of a line from state `st`.
  function ScanFrom(s: string, st: ScanState, keep: bool): ScanResult
    decreases |s|
  {
    if s == [] then Finish(st)
    else match StepOn(st, s[0], keep)
      case Stop(t) => Finish(t)
      case Next(t) => ScanFrom(s[1..], t, keep)
  }

  // What `getCommentFreeLine(line, inBlock, keep)` returns.
  function Scan(line: string, inBlock: bool, keep: bool): ScanResult {
    ScanFrom(line, Start(inBlock, keep), keep)
  }

  // `getCommentFreeLine` as the source writes it: a loop with `continue`
  // and `break` that pushes pieces onto the cleaned line.
  method GetCommentFreeLine(line: string, inBlockComment: bool, keepFirstBlockComment: bool)
    returns (r: ScanResult)
    ensures r == Scan(line, inBlockComment, keepFirstBlockComment)
    ensures IsSubseq(r.line, line) && |r.line| <= |line|
  {
    var commFreeLine := "";
    var prevC := "";
    var inBlock := inBlockComment;
    var commentExists := inBlockComment;
    var firstBlockCommentKept := false;
    var keepingFirstBlockComment := inBlockComment && keepFirstBlockComment;
    var stopped := false;
    for i := 0 to |line|
      invariant !stopped ==>
        ScanFrom(line[i..], ScanState(commFreeLine, prevC, inBlock, keepingFirstBlockComment,
                                      firstBlockCommentKept, commentExists), keepFirstBlockComment)
        == Scan(line, inBlockComment, keepFirstBlockComment)
    {
      ghost var before := ScanState(commFreeLine, prevC, inBlock, keepingFirstBlockComment,
                                    firstBlockCommentKept, commentExists);
      assert line[i..] == [line[i]] + line[i + 1..];
      var c := line[i];
      if inBlock {
        if prevC == "*" && c == '/' {
          inBlock := false;
          if keepingFirstBlockComment {
            firstBlockCommentKept := true;
            commFreeLine := commFreeLine + "*/";
          }
          keepingFirstBlockComment := false;
          prevC := "";
          continue;
        } else if !keepingFirstBlockComment {
          prevC := [c];
          continue;
        }
      } else if prevC == "/" {
        if c == '/' {
          prevC := "";
          commentExists := true;
          // ignore the rest of the line
          assert Finish(ScanState(commFreeLine, prevC, inBlock, keepingFirstBlockComment,
                                  firstBlockCommentKept, commentExists))
              == Scan(line, inBlockComment, keepFirstBlockComment);
          stopped := true;
          break;
        } else if c == '*' {
          inBlock := true;
          prevC := "";
          commentExists := true;
          if keepFirstBlockComment && !firstBlockCommentKept {
            keepingFirstBlockComment := true;
            commFreeLine := commFreeLine + "/*";
          }
          continue;
        }
      }
      commFreeLine := commFreeLine + prevC;
      prevC := [c];
    }
    assert Finish(ScanState(commFreeLine, prevC, inBlock, keepingFirstBlockComment,
                            firstBlockCommentKept, commentExists))
        == Scan(line, inBlockComment, keepFirstBlockComment);
    if !inBlock && !keepingFirstBlockComment {
      commFreeLine := commFreeLine + prevC;
    }
    r := ScanResult(commFreeLine, inBlock, commentExists && commFreeLine == "", firstBlockCommentKept);
    CleanedIsSubsequence(line, inBlockComment, keepFirstBlockComment);
  }

  // ---------------------------------------------------------------------
  // Shapes of lines

  // No `//` and no `/*` anywhere in `s`.
  predicate NoMarkers(s: string) {
    forall i, j :: 0 <= i && j == i + 1 < |s| ==> !(s[i] == '/' && (s[j] == '/' || s[j] == '*'))
  }

  // No `*/` anywhere in `s`.
  predicate NoClose(s: string) {
    forall i, j :: 0 <= i && j == i + 1 < |s| ==> !(s[i] == '*' && s[j] == '/')
  }

  // `s` without its last character ("" stays "").
  function DropLast(s: string): string {
    if s == [] then [] else s[..|s| - 1]
  }

  // The state after ordinary characters `s` were read: everything but the
  // last of them is pushed, and the last becomes the lookback.
  function Shift(st: ScanState, s: string): ScanState {
    if s == [] then st else st.(out := st.out + st.prevC + s[..|s| - 1], prevC := [s[|s| - 1]])
  }

  // ---------------------------------------------------------------------
  // Lemmas about runs of characters

  // One character of `s + x` read.
  lemma Unfold(s: string, x: string, st: ScanState, keep: bool)
    requires s != []
    ensures var r := StepOn(st, s[0], keep);
            ScanFrom(s + x, st, keep) == if r.Stop? then Finish(r.last) else ScanFrom(s[1..] + x, r.next, keep)
  {
    assert (s + x)[0] == s[0] && (s + x)[1..] == s[1..] + x;
  }

  // One character `c` read in front of `x`.
  lemma Unfold1(c: char, x: string, st: ScanState, keep: bool)
    ensures var r := StepOn(st, c, keep);
            ScanFrom([c] + x, st, keep) == if r.Stop? then Finish(r.last) else ScanFrom(x, r.next, keep)
  {
    assert ([c] + x)[0] == c && ([c] + x)[1..] == x;
  }

  // A two-character marker in front of `x`, one character at a time.
  lemma Pair(m: string, x: string)
    requires |m| == 2
    ensures m + x == [m[0]] + ([m[1]] + x)
  {
    assert m == [m[0]] + [m[1]];
  }

  // An ordinary character read: the lookback is pushed and `c` replaces it.
  lemma ShiftCons(st: ScanState, c: char, rest: string)
    ensures Shift(st.(out := st.out + st.prevC, prevC := [c]), rest) == Shift(st, [c] + rest)
  {
    var pre := [c] + rest;
    if rest != [] {
      assert pre[..|pre| - 1] == [c] + rest[..|rest| - 1];
      assert st.out + st.prevC + [c] + rest[..|rest| - 1] == st.out + st.prevC + pre[..|pre| - 1];
      assert rest[|rest| - 1] == pre[|pre| - 1];
    } else {
      assert pre[..|pre| - 1] == [];
      assert st.out + st.prevC + pre[..|pre| - 1] == st.out + st.prevC;
    }
  }

  // The marker-free and close-free properties hold of every part of a text.
  lemma NoMarkersAfter(p: string, body: string)
    requires NoMarkers(p + body)
    ensures NoMarkers(body)
    ensures p == "/" && body != [] ==> body[0] != '/' && body[0] != '*'
  {
    var s := p + body;
    forall i, j | 0 <= i && j == i + 1 < |body| ensures !(body[i] == '/' && (body[j] == '/' || body[j] == '*')) {
      assert body[i] == s[|p| + i] && body[j] == s[|p| + j];
    }
    if p == "/" && body != [] {
      assert s[0] == '/' && s[1] == body[0];
    }
  }

  lemma NoCloseAfter(p: string, body: string)
    requires NoClose(p + body)
    ensures NoClose(body)
    ensures p == "*" && body != [] ==> body[0] != '/'
  {
    var s := p + body;
    forall i, j | 0 <= i && j == i + 1 < |body| ensures !(body[i] == '*' && body[j] == '/') {
      assert body[i] == s[|p| + i] && body[j] == s[|p| + j];
    }
    if p == "*" && body != [] {
      assert s[0] == '*' && s[1] == body[0];
    }
  }

  // Outside a comment, text without markers is copied through the lookback.
  lemma {:induction false} PlainRun(pre: string, x: string, st: ScanState, keep: bool)
    requires !st.inBlock && !st.keeping
    requires NoMarkers(st.prevC + pre)
    ensures ScanFrom(pre + x, st, keep) == ScanFrom(x, Shift(st, pre), keep)
    decreases |pre|
  {
    if pre == [] {
      assert pre + x == x;
    } else {
      var c, rest := pre[0], pre[1..];
      NoMarkersAfter(st.prevC, pre);
      var t := st.(out := st.out + st.prevC, prevC := [c]);
      assert StepOn(st, c, keep) == Next(t);
      Unfold(pre, x, st, keep);
      assert t.prevC + rest == pre;
      PlainRun(rest, x, t, keep);
      ShiftCons(st, c, rest);
      assert [c] + rest == pre;
    }
  }

  // Inside a comment that is not kept, text without `*/` only moves the lookback.
  lemma {:induction false} SkippedRun(body: string, x: string, st: ScanState, keep: bool)
    requires st.inBlock && !st.keeping
    requires NoClose(st.prevC + body)
    ensures ScanFrom(body + x, st, keep)
         == ScanFrom(x, if body == [] then st else st.(prevC := [body[|body| - 1]]), keep)
    decreases |body|
  {
    if body == [] {
      assert body + x == x;
    } else {
      var c, rest := body[0], body[1..];
      NoCloseAfter(st.prevC, body);
      var t := st.(prevC := [c]);
      assert StepOn(st, c, keep) == Next(t);
      Unfold(body, x, st, keep);
      assert t.prevC + rest == body;
      SkippedRun(rest, x, t, keep);
      if rest != [] {
        assert rest[|rest| - 1] == body[|body| - 1];
      }
    }
  }

  // Inside a kept comment, text without `*/` is copied through the lookback.
  lemma {:induction false} KeptRun(body: string, x: string, st: ScanState, keep: bool)
    requires st.inBlock && st.keeping
    requires NoClose(st.prevC + body)
    ensures ScanFrom(body + x, st, keep) == ScanFrom(x, Shift(st, body), keep)
    decreases |body|
  {
    if body == [] {
      assert body + x == x;
    } else {
      var c, rest := body[0], body[1..];
      NoCloseAfter(st.prevC, body);
      var t := st.(out := st.out + st.prevC, prevC := [c]);
      assert StepOn(st, c, keep) == Next(t);
      Unfold(body, x, st, keep);
      assert t.prevC + rest == body;
      KeptRun(rest, x, t, keep);
      ShiftCons(st, c, rest);
      assert [c] + rest == body;
    }
  }

  // Text already emitted before a comment is carried unchanged to the end,
  // and once a comment was seen the line is dropped exactly when it is empty.
  lemma {:induction false} Reframe(s: string, st: ScanState, p: string, keep: bool)
    ensures var r := ScanFrom(s, st, keep);
            ScanFrom(s, st.(out := p + st.out, commentExists := true), keep)
            == r.(line := p + r.line, dropped := p + r.line == "")
    decreases |s|
  {
    if s == [] {
      assert (p + st.out) + st.prevC == p + (st.out + st.prevC);
    } else {
      ReframeStep(st, s[0], p, keep);
      match StepOn(st, s[0], keep)
      case Stop(t) =>
        assert (p + t.out) + t.prevC == p + (t.out + t.prevC);
      case Next(t) =>
        Reframe(s[1..], t, p, keep);
    }
  }

  // One step from a state with `p` in front of its output and a comment seen.
  lemma ReframeStep(st: ScanState, c: char, p: string, keep: bool)
    ensures var r := StepOn(st, c, keep);
            var st' := st.(out := p + st.out, commentExists := true);
            StepOn(st', c, keep) ==
              if r.Stop? then Stop(r.last.(out := p + r.last.out, commentExists := true))
              else Next(r.next.(out := p + r.next.out, commentExists := true))
  {
    assert (p + st.out) + "*/" == p + (st.out + "*/");
    assert (p + st.out) + "/*" == p + (st.out + "/*");
    assert (p + st.out) + st.prevC == p + (st.out + st.prevC);
  }

  // Once a preserved comment closed, the request to preserve has no effect:
  // the rest of the line is scanned as if none had been made.
  lemma {:induction false} KeptIgnoresKeep(s: string, st: ScanState, keep: bool)
    requires !st.keeping
    ensures ScanFrom(s, st.(kept := true), keep)
         == ScanFrom(s, st.(kept := false), false).(keptClosed := true)
    decreases |s|
  {
    if s != [] {
      match StepOn(st.(kept := false), s[0], false)
      case Stop(t) =>
        assert StepOn(st.(kept := true), s[0], keep) == Stop(t.(kept := true));
      case Next(t) =>
        assert !t.keeping;
        assert StepOn(st.(kept := true), s[0], keep) == Next(t.(kept := true));
        KeptIgnoresKeep(s[1..], t, keep);
    }
  }

  // The cleaned text is a subsequence of what was read.
  ghost predicate Tracks(st: ScanState, seen: string) {
    |st.prevC| <= 1 && |st.prevC| <= |seen| &&
    seen[|seen| - |st.prevC|..] == st.prevC &&
    IsSubseq(st.out, seen[..|seen| - |st.prevC|])
  }

  lemma {:induction false} SubseqFrom(s: string, st: ScanState, seen: string, keep: bool)
    requires Tracks(st, seen)
    ensures IsSubseq(ScanFrom(s, st, keep).line, seen + s)
    decreases |s|
  {
    if s == [] {
      assert seen + s == seen;
      SubseqFinish(st, seen);
    } else {
      var c := s[0];
      assert seen + s == (seen + [c]) + s[1..];
      match StepOn(st, c, keep)
      case Stop(t) =>
        TracksStop(st, seen, c, t);
        SubseqFinish(t, seen + [c]);
        SubseqExtend(Finish(t).line, seen + [c], s[1..]);
      case Next(t) =>
        TracksStep(st, seen, c, keep);
        SubseqFrom(s[1..], t, seen + [c], keep);
    }
  }

  // What the loop leaves after the last character is a subsequence of the line.
  lemma SubseqFinish(st: ScanState, seen: string)
    requires Tracks(st, seen)
    ensures IsSubseq(Finish(st).line, seen)
  {
    var k := |seen| - |st.prevC|;
    assert seen == seen[..k] + st.prevC;
    if !st.inBlock && !st.keeping {
      SubseqAppend(st.out, seen[..k], st.prevC);
    } else {
      SubseqExtend(st.out, seen[..k], st.prevC);
    }
  }

  // A character that becomes the lookback.
  lemma TracksLook(st: ScanState, seen: string, c: char, t: ScanState)
    requires Tracks(st, seen) && t.prevC == [c]
    requires t.out == st.out || t.out == st.out + st.prevC
    ensures Tracks(t, seen + [c])
  {
    var u := seen[..|seen| - |st.prevC|];
    var seen' := seen + [c];
    assert IsSubseq(t.out, seen) by {
      assert seen == u + st.prevC;
      if t.out == st.out {
        SubseqExtend(st.out, u, st.prevC);
      } else {
        SubseqAppend(st.out, u, st.prevC);
      }
    }
    assert seen'[..|seen'| - |t.prevC|] == seen;
    assert seen'[|seen'| - |t.prevC|..] == t.prevC;
  }

  // A character that clears the lookback, pushing either nothing or the
  // lookback with it.
  lemma TracksPair(st: ScanState, seen: string, c: char, t: ScanState)
    requires Tracks(st, seen) && t.prevC == ""
    requires t.out == st.out || t.out == st.out + (st.prevC + [c])
    ensures Tracks(t, seen + [c])
  {
    var u := seen[..|seen| - |st.prevC|];
    var w := st.prevC + [c];
    var seen' := seen + [c];
    assert seen' == u + w by {
      assert seen == u + st.prevC;
    }
    assert IsSubseq(t.out, u + w) by {
      if t.out == st.out {
        SubseqExtend(st.out, u, w);
      } else {
        SubseqAppend(st.out, u, w);
      }
    }
    assert seen'[..|seen'| - |t.prevC|] == seen';
    assert seen'[|seen'| - |t.prevC|..] == t.prevC;
  }

  lemma TracksStop(st: ScanState, seen: string, c: char, t: ScanState)
    requires Tracks(st, seen) && t.out == st.out && t.prevC == ""
    ensures Tracks(t, seen + [c])
  {
    TracksPair(st, seen, c, t);
  }

  // Each character read keeps the emitted text a subsequence of what was read.
  lemma TracksStep(st: ScanState, seen: string, c: char, keep: bool)
    requires Tracks(st, seen) && StepOn(st, c, keep).Next?
    ensures Tracks(StepOn(st, c, keep).next, seen + [c])
  {
    var t := StepOn(st, c, keep).next;
    if st.inBlock && st.prevC == "*" && c == '/' {
      assert "*/" == st.prevC + [c];
      TracksPair(st, seen, c, t);
    } else if !st.inBlock && st.prevC == "/" && c == '*' {
      assert "/*" == st.prevC + [c];
      TracksPair(st, seen, c, t);
    } else {
      TracksLook(st, seen, c, t);
    }
  }

  // With preservation not requested nothing is ever reported as preserved.
  lemma {:induction false} NoKeepFrom(s: string, st: ScanState)
    requires !st.keeping && !st.kept
    ensures !ScanFrom(s, st, false).keptClosed
    decreases |s|
  {
    if s != [] {
      match StepOn(st, s[0], false)
      case Stop(t) =>
      case Next(t) => NoKeepFrom(s[1..], t);
    }
  }

  // Once a comment was seen, the walker drops the line exactly when it is empty.
  lemma {:induction false} SeenCommentSticks(s: string, st: ScanState, keep: bool)
    requires st.commentExists
    ensures ScanFrom(s, st, keep).dropped == (ScanFrom(s, st, keep).line == "")
    decreases |s|
  {
    if s != [] {
      match StepOn(st, s[0], keep)
      case Stop(t) =>
      case Next(t) => SeenCommentSticks(s[1..], t, keep);
    }
  }

  // A dropped line is an empty one.
  lemma {:induction false} DroppedIsEmpty(s: string, st: ScanState, keep: bool)
    ensures ScanFrom(s, st, keep).dropped ==> ScanFrom(s, st, keep).line == ""
    decreases |s|
  {
    if s != [] {
      match StepOn(st, s[0], keep)
      case Stop(t) =>
      case Next(t) => DroppedIsEmpty(s[1..], t, keep);
    }
  }

  // ---------------------------------------------------------------------
  // Properties of whole lines

  // The cleaned line is the input with characters left out, so never longer:
  // a kept `/*` or `*/` stands for exactly the two input characters.
  lemma CleanedIsSubsequence(line: string, inBlock: bool, keep: bool)
    ensures IsSubseq(Scan(line, inBlock, keep).line, line)
    ensures |Scan(line, inBlock, keep).line| <= |line|
  {
    var st := Start(inBlock, keep);
    assert Tracks(st, "") by {
      assert st.out == [] && st.prevC == [];
    }
    SubseqFrom(line, st, "", keep);
    var r := Scan(line, inBlock, keep);
    assert IsSubseq(r.line, line) by {
      assert "" + line == line;
    }
    SubseqLength(r.line, line);
  }

  // A line outside a comment with no `//` and no `/*` comes back unchanged,
  // outside a comment, not dropped (also when empty) and with nothing preserved.
  lemma PlainLine(line: string, keep: bool)
    requires NoMarkers(line)
    ensures Scan(line, false, keep) == ScanResult(line, false, false, false)
  {
    var st := Start(false, keep);
    assert st.prevC + line == line;
    PlainRun(line, "", st, keep);
    assert line + "" == line;
    var t := Shift(st, line);
    ShiftAll(st, line);
    assert t.out + t.prevC == line;
    assert ScanFrom("", t, keep) == Finish(t);
  }

  // After a run, output and lookback together are the run appended.
  lemma ShiftAll(st: ScanState, s: string)
    ensures Shift(st, s).out + Shift(st, s).prevC == st.out + st.prevC + s
  {
    if s != [] {
      assert s[..|s| - 1] + [s[|s| - 1]] == s;
    }
  }

  // Outside a comment, the text before the first `//` is kept verbatim and
  // the rest is dropped; the line is dropped when nothing comes before `//`.
  lemma LineComment(pre: string, post: string, keep: bool)
    requires NoMarkers(pre + "/")
    ensures Scan(pre + "//" + post, false, keep) == ScanResult(pre, false, pre == "", false)
  {
    var st := Start(false, keep);
    var head := pre + "/";
    var tail := "/" + post;
    assert pre + "//" + post == head + tail;
    assert st.prevC + head == head;
    PlainRun(head, tail, st, keep);
    var t := Shift(st, head);
    assert head[..|head| - 1] == pre;
    assert t == st.(out := pre, prevC := "/");
    assert tail[0] == '/';
    var last := t.(prevC := "", commentExists := true);
    assert StepOn(t, '/', keep) == Stop(last);
    assert ScanFrom(tail, t, keep) == Finish(last);
    assert last.out + last.prevC == pre;
  }

  // Outside a comment, `/*` after marker-free text opens a block comment: the
  // prefix is kept, the opener is kept only when preservation is requested,
  // and the rest is scanned as a line that starts inside the comment.
  lemma OpenComment(pre: string, rest: string, keep: bool)
    requires NoMarkers(pre + "/")
    ensures var r := Scan(rest, true, keep);
            var cleaned := pre + (if keep then "/*" else "") + r.line;
            Scan(pre + "/*" + rest, false, keep)
            == ScanResult(cleaned, r.inBlock, cleaned == "", r.keptClosed)
  {
    var st := Start(false, keep);
    var p := pre + (if keep then "/*" else "");
    var r := Scan(rest, true, keep);
    var t := Shift(st, pre + "/");
    assert t == st.(out := pre, prevC := "/") by {
      assert (pre + "/")[..|pre + "/"| - 1] == pre;
    }
    var t' := Start(true, keep).(out := p + "", commentExists := true);
    assert StepOn(t, '*', keep) == Next(t') by {
      assert p + "" == p;
    }
    calc {
      Scan(pre + "/*" + rest, false, keep);
      { assert pre + "/*" + rest == (pre + "/") + ("*" + rest); }
      ScanFrom((pre + "/") + ("*" + rest), st, keep);
      { assert st.prevC + (pre + "/") == pre + "/";
        PlainRun(pre + "/", "*" + rest, st, keep); }
      ScanFrom("*" + rest, t, keep);
      { Unfold("*", rest, t, keep);
        assert "*"[1..] + rest == rest; }
      ScanFrom(rest, t', keep);
      { Reframe(rest, Start(true, keep), p, keep); }
      r.(line := p + r.line, dropped := p + r.line == "");
    }
  }

  // Inside a comment that is not preserved, the first `*/` closes it: nothing
  // before it is emitted and the rest is scanned as a line outside a comment.
  lemma CloseComment(body: string, post: string)
    requires NoClose(body)
    ensures var r := Scan(post, false, false);
            Scan(body + "*/" + post, true, false) == r.(dropped := r.line == "")
  {
    var st := Start(true, false);
    assert body + "*/" + post == body + ("*/" + post);
    assert "" + body == body;
    SkippedRun(body, "*/" + post, st, false);
    var t := if body == [] then st else st.(prevC := [body[|body| - 1]]);
    assert ("*/" + post)[0] == '*' && ("*/" + post)[1..] == "/" + post;
    assert ("/" + post)[0] == '/' && ("/" + post)[1..] == post;
    var t1 := t.(prevC := "*");
    assert StepOn(t, '*', false) == Next(t1);
    assert StepOn(t1, '/', false) == Next(ScanState("", "", false, false, false, true));
    Reframe(post, Start(false, false), "", false);
    assert "" + "" == "";
  }

  // Inside a preserved comment, everything up to and including the first
  // `*/` is emitted, the closing is reported, and later comments on the line
  // are stripped.
  lemma CloseKeptComment(body: string, post: string)
    requires NoClose(body)
    ensures var r := Scan(post, false, false);
            Scan(body + "*/" + post, true, true)
            == ScanResult(body + "*/" + r.line, r.inBlock, false, true)
  {
    var t2 := ScanState(body + "*/", "", false, false, true, true);
    var r := Scan(post, false, false);
    calc {
      Scan(body + "*/" + post, true, true);
      { ReadKeptClose(body, post); }
      ScanFrom(post, t2, true);
      { KeptIgnoresKeep(post, t2, true); }
      ScanFrom(post, t2.(kept := false), false).(keptClosed := true);
      { assert t2.(kept := false) == Start(false, false).(out := (body + "*/") + "", commentExists := true);
        Reframe(post, Start(false, false), body + "*/", false); }
      r.(line := body + "*/" + r.line, dropped := body + "*/" + r.line == "", keptClosed := true);
    }
    assert body + "*/" + r.line != "" by {
      assert |body + "*/" + r.line| >= 2;
    }
  }

  // Reading a preserved comment's body and its `*/`.
  lemma ReadKeptClose(body: string, post: string)
    requires NoClose(body)
    ensures Scan(body + "*/" + post, true, true) == ScanFrom(post, ScanState(body + "*/", "", false, false, true, true), true)
  {
    var st := Start(true, true);
    var t := Shift(st, body);
    ShiftAll(st, body);
    var t1 := t.(out := body, prevC := "*");
    assert StepOn(t, '*', true) == Next(t1) by {
      assert t.out + t.prevC == body;
    }
    var t2 := ScanState(body + "*/", "", false, false, true, true);
    assert StepOn(t1, '/', true) == Next(t2);
    calc {
      Scan(body + "*/" + post, true, true);
      { ConcatAssoc(body, "*/", post); }
      ScanFrom(body + ("*/" + post), st, true);
      { assert st.prevC + body == body;
        KeptRun(body, "*/" + post, st, true); }
      ScanFrom("*/" + post, t, true);
      { Pair("*/", post); }
      ScanFrom(['*'] + (['/'] + post), t, true);
      { Unfold1('*', ['/'] + post, t, true); }
      ScanFrom(['/'] + post, t1, true);
      { Unfold1('/', post, t1, true); }
      ScanFrom(post, t2, true);
    }
  }

  // A line inside a comment with no `*/` leaves the comment open. Not
  // preserved, it is emptied and dropped; preserved, it is emitted without
  // its last character (so `/**` yields `/*`).
  lemma InsideComment(line: string, keep: bool)
    requires NoClose(line)
    ensures Scan(line, true, keep)
         == if keep then ScanResult(DropLast(line), true, |line| <= 1, false)
            else ScanResult("", true, true, false)
  {
    var st := Start(true, keep);
    assert line + "" == line && "" + line == line;
    if keep {
      KeptRun(line, "", st, keep);
    } else {
      SkippedRun(line, "", st, keep);
    }
  }

  // Without a request to preserve, no line reports a preserved comment.
  lemma NoKeepNoCapture(line: string, inBlock: bool)
    ensures !Scan(line, inBlock, false).keptClosed
  {
    NoKeepFrom(line, Start(inBlock, false));
  }

  // The drop flag: a line is dropped exactly when its cleaned form is empty
  // and it began inside a comment or holds a `//` or `/*`. So an empty line
  // outside a comment is kept, and a line holding only a comment is dropped.
  lemma DropFlag(line: string, inBlock: bool, keep: bool)
    ensures var r := Scan(line, inBlock, keep);
            r.dropped <==> r.line == "" && (inBlock || !NoMarkers(line))
  {
    if inBlock {
      SeenCommentSticks(line, Start(inBlock, keep), keep);
    } else if NoMarkers(line) {
      PlainLine(line, keep);
    } else {
      var k := FirstMarker(line);
      var pre, post := line[..k], line[k + 2..];
      assert pre + "/" == line[..k + 1];
      assert line == pre + [line[k], line[k + 1]] + post;
      if line[k + 1] == '/' {
        LineComment(pre, post, keep);
      } else {
        OpenComment(pre, post, keep);
      }
    }
  }

  // Where a line holds a `//` or `/*`, the first one: nothing before its
  // second character forms a marker.
  lemma {:induction false} FirstMarker(line: string) returns (k: nat)
    requires !NoMarkers(line)
    ensures k + 1 < |line| && line[k] == '/' && (line[k + 1] == '/' || line[k + 1] == '*')
    ensures NoMarkers(line[..k + 1])
    decreases |line|
  {
    var init := line[..|line| - 1];
    if !NoMarkers(init) {
      k := FirstMarker(init);
      assert line[..k + 1] == init[..k + 1];
    } else {
      k := |line| - 2;
      assert line[..k + 1] == init;
    }
  }

  // ---------------------------------------------------------------------
  // Worked lines

  // `a(); // c` becomes `a(); ` with its trailing space.
  lemma TrailingLineComment()
    ensures Scan("a(); // c", false, false) == ScanResult("a(); ", false, false, false)
  {
    assert "a(); // c" == "a(); " + "//" + " c";
    LineComment("a(); ", " c", false);
  }

  // A preserved block comment standing alone on a line, such as
  // `/** lic */`, comes back unchanged and is reported as preserved.
  lemma KeptBlockComment(body: string)
    requires NoClose(body)
    ensures var line := "/*" + body + "*/";
            Scan(line, false, true) == ScanResult(line, false, false, true)
  {
    var line := "/*" + body + "*/";
    assert NoMarkers("" + "/") by {
      assert |"" + "/"| == 1;
    }
    OpenComment("", body + "*/", true);
    assert "" + "/*" + (body + "*/") == line;
    CloseKeptComment(body, "");
    assert body + "*/" + "" == body + "*/";
    PlainLine("", false);
    assert "" + "/*" + (body + "*/" + "") == line;
  }

  // `/*/` does not close, and a preserved `/**` line yields `/*`.
  lemma OpenerThenSlash()
    ensures Scan("/*/", false, false) == ScanResult("", true, true, false)
    ensures Scan("/**", false, true) == ScanResult("/*", true, false, false)
  {
    assert "/*/" == "" + "/*" + "/";
    OpenComment("", "/", false);
    InsideComment("/", false);
    assert "/**" == "" + "/*" + "*";
    OpenComment("", "*", true);
    InsideComment("*", true);
  }
}
