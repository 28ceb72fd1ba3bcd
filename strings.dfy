/** String helpers the merger relies on: prefix and suffix tests, joining
    with a separator, splitting on `\r?\n`, and the subsequence relation. */
module Text {

  predicate StartsWith<T(==)>(s: seq<T>, p: seq<T>) {
    |p| <= |s| && s[..|p|] == p
  }

  predicate EndsWith(s: string, p: string) {
    |p| <= |s| && s[|s| - |p|..] == p
  }

  // A string that starts with `p` is `p` followed by the rest.
  lemma Glue(p: string, s: string)
    requires StartsWith(s, p)
    ensures s == p + s[|p|..]
  {
    assert s == s[..|p|] + s[|p|..];
  }

  /** `parts.join(sep)`: the empty list joins to "". */
  function Join(parts: seq<string>, sep: string): string
    decreases |parts|
  {
    if |parts| == 0 then ""
    else if |parts| == 1 then parts[0]
    else parts[0] + sep + Join(parts[1..], sep)
  }

  lemma JoinCons(x: string, tail: seq<string>, sep: string)
    requires |tail| >= 1
    ensures Join([x] + tail, sep) == x + sep + Join(tail, sep)
  {
    assert ([x] + tail)[1..] == tail;
  }

  lemma ConcatAssoc<T>(a: seq<T>, b: seq<T>, c: seq<T>)
    ensures a + b + c == a + (b + c)
  {
  }

  /** Index of the first occurrence of `c` in `s`. */
  function IndexOf(s: string, c: char): (k: nat)
    requires c in s
    ensures k < |s| && s[k] == c && c !in s[..k]
  {
    if s[0] == c then 0
    else
      var k := 1 + IndexOf(s[1..], c);
      assert s[..k] == [s[0]] + s[1..][..k - 1];
      k
  }

  /** No `\r` stands right before a `\n`. */
  predicate NoCrLf(s: string) {
    forall i, j :: 0 <= i < |s| && j == i + 1 < |s| ==> !(s[i] == '\r' && s[j] == '\n')
  }

  /** `s.split(/\r?\n/)`: the pieces between line breaks, a break being `\n`
      or `\r\n`; a string without a break is one piece, so "" gives [""]. */
  function SplitLines(s: string): (lines: seq<string>)
    ensures |lines| >= 1
    ensures forall i :: 0 <= i < |lines| ==> '\n' !in lines[i]
    decreases |s|
  {
    if '\n' !in s then [s]
    else
      var k := IndexOf(s, '\n');
      var piece := if k > 0 && s[k - 1] == '\r' then s[..k - 1] else s[..k];
      assert '\n' !in piece by {
        assert piece == s[..k][..|piece|];
      }
      [piece] + SplitLines(s[k + 1..])
  }

  /** Splitting a text without `\r\n` and joining the pieces with `\n` gives it back. */
  lemma {:induction false} JoinSplitLines(s: string)
    requires NoCrLf(s)
    ensures Join(SplitLines(s), "\n") == s
    decreases |s|
  {
    if '\n' in s {
      var k := IndexOf(s, '\n');
      var head, rest := s[..k], s[k + 1..];
      NoCrLfSuffix(s, k + 1);
      JoinSplitLines(rest);
      SplitFirst(s);
      calc {
        Join(SplitLines(s), "\n");
        Join([head] + SplitLines(rest), "\n");
        { JoinCons(head, SplitLines(rest), "\n"); }
        head + "\n" + Join(SplitLines(rest), "\n");
        head + "\n" + rest;
        { Around(s, k); }
        s;
      }
    } else {
      assert SplitLines(s) == [s];
    }
  }

  lemma Around(s: string, k: nat)
    requires k < |s| && s[k] == '\n'
    ensures s[..k] + "\n" + s[k + 1..] == s
  {
  }

  lemma NoCrLfSuffix(s: string, i: nat)
    requires NoCrLf(s) && i <= |s|
    ensures NoCrLf(s[i..])
  {
    var rest := s[i..];
    forall a, b | 0 <= a < |rest| && b == a + 1 < |rest| ensures !(rest[a] == '\r' && rest[b] == '\n') {
      assert rest[a] == s[i + a] && rest[b] == s[i + b];
    }
  }

  // Without `\r\n`, the first piece is everything before the first `\n`.
  lemma SplitFirst(s: string)
    requires NoCrLf(s) && '\n' in s
    ensures var k := IndexOf(s, '\n'); SplitLines(s) == [s[..k]] + SplitLines(s[k + 1..])
  {
    var k := IndexOf(s, '\n');
    assert k > 0 ==> s[k - 1] != '\r' by {
      if k > 0 {
        assert s[k] == '\n';
      }
    }
  }

  /** Joining lines that hold no `\n` and do not end in `\r`, then splitting,
      gives the lines back. */
  lemma {:induction false} SplitLinesJoin(lines: seq<string>)
    requires |lines| >= 1
    requires forall i :: 0 <= i < |lines| ==> '\n' !in lines[i] && !EndsWith(lines[i], "\r")
    ensures SplitLines(Join(lines, "\n")) == lines
    decreases |lines|
  {
    if |lines| > 1 {
      var head, rest := lines[0], Join(lines[1..], "\n");
      var s := Join(lines, "\n");
      assert s == head + "\n" + rest;
      assert s[|head|] == '\n';
      assert s[..|head|] == head;
      var k := IndexOf(s, '\n');
      assert k == |head|;
      assert !(k > 0 && s[k - 1] == '\r') by {
        if k > 0 { assert head[|head| - 1..] == [head[|head| - 1]]; }
      }
      assert s[k + 1..] == rest;
      SplitLinesJoin(lines[1..]);
    }
  }

  /** `a` is a subsequence of `b`: `a` is `b` with some characters left out. */
  predicate IsSubseq<T(==)>(a: seq<T>, b: seq<T>)
    decreases |b|
  {
    a == [] ||
    (b != [] &&
     (IsSubseq(a, b[..|b| - 1]) ||
      (a[|a| - 1] == b[|b| - 1] && IsSubseq(a[..|a| - 1], b[..|b| - 1]))))
  }

  lemma {:induction false} SubseqExtend<T>(a: seq<T>, b: seq<T>, x: seq<T>)
    requires IsSubseq(a, b)
    ensures IsSubseq(a, b + x)
    decreases |x|
  {
    if x == [] {
      assert b + x == b;
    } else if a != [] {
      SubseqExtend(a, b, x[..|x| - 1]);
      assert (b + x)[..|b + x| - 1] == b + x[..|x| - 1];
      assert IsSubseq(a, (b + x)[..|b + x| - 1]);
    }
  }

  lemma {:induction false} SubseqAppend<T>(a: seq<T>, b: seq<T>, x: seq<T>)
    requires IsSubseq(a, b)
    ensures IsSubseq(a + x, b + x)
    decreases |x|
  {
    if x != [] {
      SubseqAppend(a, b, x[..|x| - 1]);
      assert (a + x)[..|a + x| - 1] == a + x[..|x| - 1];
      assert (b + x)[..|b + x| - 1] == b + x[..|x| - 1];
    } else {
      assert a + x == a && b + x == b;
    }
  }

  lemma {:induction false} SubseqLength<T>(a: seq<T>, b: seq<T>)
    requires IsSubseq(a, b)
    ensures |a| <= |b|
    decreases |b|
  {
    if a != [] {
      if IsSubseq(a, b[..|b| - 1]) {
        SubseqLength(a, b[..|b| - 1]);
      } else {
        SubseqLength(a[..|a| - 1], b[..|b| - 1]);
      }
    }
  }

  lemma {:induction false} SubseqSelf<T>(s: seq<T>)
    ensures IsSubseq(s, s)
    decreases |s|
  {
    if s != [] {
      SubseqSelf(s[..|s| - 1]);
    }
  }

  /** Prepending to the supersequence keeps the relation. */
  lemma {:induction false} SubseqPrefixed<T>(a: seq<T>, b: seq<T>, p: seq<T>)
    requires IsSubseq(a, b)
    ensures IsSubseq(a, p + b)
    decreases |b|
  {
    if a != [] {
      assert (p + b)[..|p + b| - 1] == p + b[..|b| - 1];
      if IsSubseq(a, b[..|b| - 1]) {
        SubseqPrefixed(a, b[..|b| - 1], p);
      } else {
        SubseqPrefixed(a[..|a| - 1], b[..|b| - 1], p);
      }
    }
  }

  /** Putting the same element in front of both keeps the relation. */
  lemma {:induction false} SubseqCons<T>(x: T, a: seq<T>, b: seq<T>)
    requires IsSubseq(a, b)
    ensures IsSubseq([x] + a, [x] + b)
    decreases |b|
  {
    if a == [] {
      assert IsSubseq([x], [x]) by {
        assert [x][..0] == [];
      }
      SubseqExtend([x], [x], b);
      assert [x] + a == [x];
    } else {
      var b' := b[..|b| - 1];
      assert ([x] + b)[..|[x] + b| - 1] == [x] + b';
      if IsSubseq(a, b') {
        SubseqCons(x, a, b');
      } else {
        var a' := a[..|a| - 1];
        SubseqCons(x, a', b');
        assert ([x] + a)[..|[x] + a| - 1] == [x] + a';
      }
    }
  }

  /** Inserting elements anywhere into the supersequence keeps the relation. */
  lemma {:induction false} SubseqInsert<T>(a: seq<T>, u: seq<T>, w: seq<T>, v: seq<T>)
    requires IsSubseq(a, u + v)
    ensures IsSubseq(a, u + w + v)
    decreases |v|
  {
    if v == [] {
      assert u + v == u && u + w + v == u + w;
      SubseqExtend(a, u, w);
    } else if a != [] {
      var v' := v[..|v| - 1];
      assert (u + v)[..|u + v| - 1] == u + v';
      assert (u + w + v)[..|u + w + v| - 1] == u + w + v';
      assert (u + v)[|u + v| - 1] == (u + w + v)[|u + w + v| - 1];
      if IsSubseq(a, u + v') {
        SubseqInsert(a, u, w, v');
      } else {
        SubseqInsert(a[..|a| - 1], u, w, v');
      }
    }
  }
}
