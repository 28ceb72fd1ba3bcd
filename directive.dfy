// The `/// <reference lib="..."/>` directive: a hand-written matcher for
// the regular expression
//   ^(\/\/\/\s*<reference\s+lib\s*=\s*)('|")(.+?)\2.*?\/>
// and the normalisation of the captured library name into a file name.
module Directive {
  import opened Text

  datatype Option<T> = None | Some(value: T)

  // ECMAScript `\s`: the WhiteSpace and LineTerminator characters.
  predicate IsSpace(c: char) {
    c == '\t' || c == '\n' || c == '\U{000B}' || c == '\U{000C}' || c == '\r' || c == ' ' ||
    c == '\U{00A0}' || c == '\U{1680}' || ('\U{2000}' <= c <= '\U{200A}') ||
    c == '\U{2028}' || c == '\U{2029}' || c == '\U{202F}' || c == '\U{205F}' ||
    c == '\U{3000}' || c == '\U{FEFF}'
  }

  // The characters ECMAScript `.` does not match.
  predicate IsLineTerminator(c: char) {
    c == '\n' || c == '\r' || c == '\U{2028}' || c == '\U{2029}'
  }

  predicate IsQuote(c: char) {
    c == '\'' || c == '"'
  }

  predicate NoTerminator(t: string) {
    forall k :: 0 <= k < |t| ==> !IsLineTerminator(t[k])
  }

  predicate AllSpace(t: string) {
    forall k :: 0 <= k < |t| ==> IsSpace(t[k])
  }

  // What a greedy `\s*` leaves of `s`: the suffix after its longest leading
  // run of whitespace (the regex never backtracks into such a run, since
  // each `\s*` and `\s+` is followed by a literal that is not a space).
  function SkipSpaces(s: string): (r: string)
    ensures |r| <= |s| && r == s[|s| - |r|..]
    ensures AllSpace(s[..|s| - |r|])
    ensures r == [] || !IsSpace(r[0])
  {
    if s != [] && IsSpace(s[0]) then
      var r := SkipSpaces(s[1..]);
      assert s[..|s| - |r|] == [s[0]] + s[1..][..|s[1..]| - |r|];
      r
    else
      assert s[..0] == [];
      s
  }

  // `.*?\/>` matches a prefix of `s`: a `/>` follows with no line terminator before it.
  predicate TagEnd(s: string) {
    if |s| < 2 then false
    else if s[0] == '/' && s[1] == '>' then true
    else if IsLineTerminator(s[0]) then false
    else TagEnd(s[1..])
  }

  // The name `s[..m]` is closed by the quote `q` at index `m`, and the tag ends after it.
  predicate Closes(s: string, q: char, m: nat) {
    0 < m < |s| && NoTerminator(s[..m]) && s[m] == q && TagEnd(s[m + 1..])
  }

  // The lazy `(.+?)\2`: the least closing index `m >= k`.
  function NameEnd(s: string, q: char, k: nat): (r: Option<nat>)
    requires 0 < k <= |s|
    requires NoTerminator(s[..k - 1])
    ensures r.Some? ==> k <= r.value && Closes(s, q, r.value)
    ensures r.Some? ==> forall m :: k <= m < r.value ==> !Closes(s, q, m)
    ensures r.None? ==> forall m :: k <= m < |s| ==> !Closes(s, q, m)
    decreases |s| - k
  {
    assert s[..k] == s[..k - 1] + [s[k - 1]];
    if IsLineTerminator(s[k - 1]) then
      assert forall m :: k <= m < |s| ==> s[..m][k - 1] == s[k - 1];
      None
    else if k < |s| && s[k] == q && TagEnd(s[k + 1..]) then Some(k)
    else if k < |s| then NameEnd(s, q, k + 1)
    else None
  }

  // The captured library name, `refInclude[3]` of
  // `line.match(fullTripleSlashReferenceLibRegEx)`, read off the line
  // piece by piece: `///`, spaces, `<reference`, at least one space, `lib`,
  // spaces, `=`, spaces, a quote, the lazily matched name, the same quote,
  // and the rest of the tag up to `/>`.
  function LibName(line: string): (r: Option<string>)
    ensures r.Some? ==> StartsWith(line, "///")
    ensures r.Some? ==> |r.value| >= 1 && NoTerminator(r.value)
  {
    if !StartsWith(line, "///") then None
    else AfterSlashes(SkipSpaces(line[3..]))
  }

  // After `///\s*`.
  function AfterSlashes(s: string): (r: Option<string>)
    ensures r.Some? ==> |r.value| >= 1 && NoTerminator(r.value)
  {
    if !StartsWith(s, "<reference") then None
    else
      var t := s[10..];
      var u := SkipSpaces(t);
      if |u| == |t| then None
      else AfterSpace(u)
  }

  // After `<reference\s+`.
  function AfterSpace(s: string): (r: Option<string>)
    ensures r.Some? ==> |r.value| >= 1 && NoTerminator(r.value)
  {
    if !StartsWith(s, "lib") then None
    else AfterLib(SkipSpaces(s[3..]))
  }

  // After `lib\s*`.
  function AfterLib(s: string): (r: Option<string>)
    ensures r.Some? ==> |r.value| >= 1 && NoTerminator(r.value)
  {
    if !StartsWith(s, "=") then None
    else AfterEquals(SkipSpaces(s[1..]))
  }

  // After `=\s*`: a quote, the lazy name, the same quote, `.*?\/>`.
  function AfterEquals(s: string): (r: Option<string>)
    ensures r.Some? ==> |r.value| >= 1 && NoTerminator(r.value)
  {
    if |s| < 2 || !IsQuote(s[0]) then None
    else
      var body := s[1..];
      match NameEnd(body, s[0], 1)
      case None => None
      case Some(m) => Some(body[..m])
  }

  // The directive as written with whitespace runs `w1` to `w4` (`w2` not
  // empty), quote `q`, the name, the tag's trailing attributes `tail` and
  // whatever follows the tag on the line, `rest`.
  function DirectiveLine(w1: string, w2: string, w3: string, w4: string,
                         q: char, name: string, tail: string, rest: string): string
  {
    "///" + (w1 + ("<reference" + (w2 + ("lib" + (w3 + ("=" + (w4 + ([q] + Quoted(q, name, tail, rest)))))))))
  }

  // What follows the opening quote.
  function Quoted(q: char, name: string, tail: string, rest: string): string {
    name + ([q] + (tail + ("/>" + rest)))
  }

  // The pieces of a directive that the regular expression accepts.
  predicate Layout(w1: string, w2: string, w3: string, w4: string, q: char, name: string, tail: string) {
    AllSpace(w1) && AllSpace(w2) && AllSpace(w3) && AllSpace(w4) && w2 != [] &&
    IsQuote(q) && name != [] && q !in name[1..] && NoTerminator(name) && NoTerminator(tail)
  }

  // `line` is a directive naming `name`, in some layout.
  ghost predicate IsDirective(line: string, name: string) {
    exists w1, w2, w3, w4, q, tail, rest ::
      Layout(w1, w2, w3, w4, q, name, tail) && line == DirectiveLine(w1, w2, w3, w4, q, name, tail, rest)
  }

  lemma {:induction false} SkipSpacesOver(w: string, x: string)
    requires AllSpace(w) && (x == [] || !IsSpace(x[0]))
    ensures SkipSpaces(w + x) == x
    decreases |w|
  {
    if w == [] {
      assert w + x == x;
    } else {
      assert (w + x)[1..] == w[1..] + x;
      SkipSpacesOver(w[1..], x);
    }
  }

  lemma SkipSpacesSplit(s: string) returns (w: string)
    ensures AllSpace(w) && s == w + SkipSpaces(s)
  {
    w := s[..|s| - |SkipSpaces(s)|];
  }

  // Text without line terminators before a tag end keeps the tag end.
  lemma {:induction false} TagEndAfter(x: string, y: string)
    requires NoTerminator(x) && TagEnd(y)
    ensures TagEnd(x + y)
    decreases |x|
  {
    if x == [] {
      assert x + y == y;
    } else if !(x[0] == '/' && (x + y)[1] == '>') {
      assert (x + y)[1..] == x[1..] + y;
      TagEndAfter(x[1..], y);
    }
  }

  lemma TagEndOver(t: string, rest: string)
    requires NoTerminator(t)
    ensures TagEnd(t + ("/>" + rest))
  {
    var y := "/>" + rest;
    assert y[0] == '/' && y[1] == '>';
    TagEndAfter(t, y);
  }

  // A tag end splits into the attributes before the first `/>` and the rest.
  lemma {:induction false} TagEndSplit(t: string) returns (tail: string, rest: string)
    requires TagEnd(t)
    ensures NoTerminator(tail) && t == tail + ("/>" + rest)
    decreases |t|
  {
    if t[0] == '/' && t[1] == '>' {
      tail, rest := "", t[2..];
      assert t == t[..2] + t[2..];
    } else {
      var tail', rest' := TagEndSplit(t[1..]);
      tail, rest := [t[0]] + tail', rest';
      assert t == [t[0]] + t[1..];
    }
  }

  // The name closed by `q` is the lazy capture.
  lemma NameOver(q: char, name: string, tail: string, rest: string)
    requires name != [] && q !in name[1..] && NoTerminator(name) && NoTerminator(tail)
    ensures NameEnd(Quoted(q, name, tail, rest), q, 1) == Some(|name|)
  {
    var s := Quoted(q, name, tail, rest);
    assert s[..|name|] == name;
    assert s[|name|] == q;
    assert s[|name| + 1..] == tail + ("/>" + rest);
    TagEndOver(tail, rest);
    assert Closes(s, q, |name|);
    forall m | 1 <= m < |name| ensures !Closes(s, q, m) {
      assert s[m] == name[m] == name[1..][m - 1];
    }
    assert s[..0] == [];
  }

  // A directive written in any of the accepted layouts is recognised, and
  // the captured name is exactly the one written between the quotes.
  lemma MatchDirectiveLine(w1: string, w2: string, w3: string, w4: string,
                           q: char, name: string, tail: string, rest: string)
    requires Layout(w1, w2, w3, w4, q, name, tail)
    ensures LibName(DirectiveLine(w1, w2, w3, w4, q, name, tail, rest)) == Some(name)
  {
    var line := DirectiveLine(w1, w2, w3, w4, q, name, tail, rest);
    var r4 := [q] + Quoted(q, name, tail, rest);
    var r3 := "=" + (w4 + r4);
    var r2 := "lib" + (w3 + r3);
    var r1 := "<reference" + (w2 + r2);
    assert line == "///" + (w1 + r1);
    Triple(w1, r1);
    Slashes(w2, r2);
    Space(w3, r3);
    Lib(w4, r4);
    Equals(q, name, tail, rest);
  }

  // `LibName` recognises exactly the directives: a line yields a name if and
  // only if it is a directive, in some layout, naming it.
  lemma LibNameExact(line: string, name: string)
    ensures LibName(line) == Some(name) <==> IsDirective(line, name)
  {
    if LibName(line) == Some(name) {
      var w1, w2, w3, w4, q, tail, rest := DirectiveParts(line);
      assert Layout(w1, w2, w3, w4, q, name, tail) && line == DirectiveLine(w1, w2, w3, w4, q, name, tail, rest);
    }
    if IsDirective(line, name) {
      var w1, w2, w3, w4, q, tail, rest :|
        Layout(w1, w2, w3, w4, q, name, tail) && line == DirectiveLine(w1, w2, w3, w4, q, name, tail, rest);
      MatchDirectiveLine(w1, w2, w3, w4, q, name, tail, rest);
    }
  }

  // The pieces of a recognised directive.
  lemma DirectiveParts(line: string)
    returns (w1: string, w2: string, w3: string, w4: string, q: char, tail: string, rest: string)
    requires LibName(line).Some?
    ensures Layout(w1, w2, w3, w4, q, LibName(line).value, tail)
    ensures line == DirectiveLine(w1, w2, w3, w4, q, LibName(line).value, tail, rest)
  {
    var r1, r2, r3, r4;
    w1, r1 := TripleBack(line);
    w2, r2 := SlashesBack(r1);
    w3, r3 := SpaceBack(r2);
    w4, r4 := LibBack(r3);
    q, tail, rest := EqualsBack(r4);
  }

  lemma Triple(w1: string, r1: string)
    requires AllSpace(w1) && r1 != [] && r1[0] == '<'
    ensures LibName("///" + (w1 + r1)) == AfterSlashes(r1)
  {
    var line := "///" + (w1 + r1);
    assert line[..3] == "///" && line[3..] == w1 + r1;
    SkipSpacesOver(w1, r1);
  }

  lemma TripleBack(line: string) returns (w1: string, r1: string)
    requires LibName(line).Some?
    ensures AllSpace(w1) && line == "///" + (w1 + r1) && AfterSlashes(r1) == LibName(line)
  {
    var t := line[3..];
    r1 := SkipSpaces(t);
    w1 := SkipSpacesSplit(t);
    Glue("///", line);
  }

  lemma Slashes(w2: string, r2: string)
    requires AllSpace(w2) && w2 != [] && r2 != [] && r2[0] == 'l'
    ensures AfterSlashes("<reference" + (w2 + r2)) == AfterSpace(r2)
  {
    var s := "<reference" + (w2 + r2);
    assert s[..10] == "<reference" && s[10..] == w2 + r2;
    SkipSpacesOver(w2, r2);
  }

  lemma SlashesBack(s: string) returns (w2: string, r2: string)
    requires AfterSlashes(s).Some?
    ensures AllSpace(w2) && w2 != [] && s == "<reference" + (w2 + r2) && AfterSpace(r2) == AfterSlashes(s)
  {
    var t := s[10..];
    r2 := SkipSpaces(t);
    w2 := SkipSpacesSplit(t);
    Glue("<reference", s);
  }

  lemma Space(w3: string, r3: string)
    requires AllSpace(w3) && r3 != [] && r3[0] == '='
    ensures AfterSpace("lib" + (w3 + r3)) == AfterLib(r3)
  {
    var s := "lib" + (w3 + r3);
    assert s[..3] == "lib" && s[3..] == w3 + r3;
    SkipSpacesOver(w3, r3);
  }

  lemma SpaceBack(s: string) returns (w3: string, r3: string)
    requires AfterSpace(s).Some?
    ensures AllSpace(w3) && s == "lib" + (w3 + r3) && AfterLib(r3) == AfterSpace(s)
  {
    var t := s[3..];
    r3 := SkipSpaces(t);
    w3 := SkipSpacesSplit(t);
    Glue("lib", s);
  }

  lemma Lib(w4: string, r4: string)
    requires AllSpace(w4) && r4 != [] && IsQuote(r4[0])
    ensures AfterLib("=" + (w4 + r4)) == AfterEquals(r4)
  {
    var s := "=" + (w4 + r4);
    assert s[..1] == "=" && s[1..] == w4 + r4;
    SkipSpacesOver(w4, r4);
  }

  lemma LibBack(s: string) returns (w4: string, r4: string)
    requires AfterLib(s).Some?
    ensures AllSpace(w4) && s == "=" + (w4 + r4) && AfterEquals(r4) == AfterLib(s)
  {
    var t := s[1..];
    r4 := SkipSpaces(t);
    w4 := SkipSpacesSplit(t);
    Glue("=", s);
  }

  lemma Equals(q: char, name: string, tail: string, rest: string)
    requires IsQuote(q) && name != [] && q !in name[1..] && NoTerminator(name) && NoTerminator(tail)
    ensures AfterEquals([q] + Quoted(q, name, tail, rest)) == Some(name)
  {
    var s := [q] + Quoted(q, name, tail, rest);
    assert s[0] == q && s[1..] == Quoted(q, name, tail, rest);
    NameOver(q, name, tail, rest);
    assert Quoted(q, name, tail, rest)[..|name|] == name;
  }

  // After `=\s*`, the pieces of what was matched: the quote, the capture,
  // the tag's attributes and what follows the tag.
  lemma EqualsBack(s: string) returns (q: char, tail: string, rest: string)
    requires AfterEquals(s).Some?
    ensures var name := AfterEquals(s).value;
            IsQuote(q) && q !in name[1..] && NoTerminator(tail) && s == [q] + Quoted(q, name, tail, rest)
  {
    q := s[0];
    var body := s[1..];
    var m := NameEnd(body, q, 1).value;
    var name := body[..m];
    assert AfterEquals(s).value == name;
    tail, rest := TagEndSplit(body[m + 1..]);
    assert body == name + ([q] + body[m + 1..]) by {
      assert body == body[..m] + ([body[m]] + body[m + 1..]);
    }
    assert s == [q] + body;
    forall k | 0 <= k < |name[1..]| ensures name[1..][k] != q {
      EarlyQuote(body, q, m, k + 1);
    }
  }

  // A quote inside a closed name would close it earlier.
  lemma EarlyQuote(body: string, q: char, m: nat, j: nat)
    requires Closes(body, q, m) && 0 < j < m && IsQuote(q)
    ensures body[j] == q ==> Closes(body, q, j)
  {
    if body[j] == q {
      assert NoTerminator(body[..j]) by {
        assert forall i :: 0 <= i < j ==> body[..j][i] == body[..m][i];
      }
      var x := body[j + 1..m] + [q];
      assert NoTerminator(x) by {
        assert forall i :: 0 <= i < m - j - 1 ==> x[i] == body[..m][j + 1 + i];
      }
      TagEndAfter(x, body[m + 1..]);
      assert body[j + 1..] == x + body[m + 1..];
    }
  }

  // Leading whitespace before `///` is not allowed.
  lemma NoLeadingSpace(line: string)
    requires |line| > 0 && IsSpace(line[0])
    ensures LibName(line) == None
  {
    assert !IsSpace('/');
    assert !StartsWith(line, "///") by {
      if |line| >= 3 {
        assert line[..3][0] == line[0];
      }
    }
  }

  // `lib.` is prefixed unless present and `.d.ts` appended unless present
  // (the suffix test sees the already prefixed name).
  function Normalize(name: string): (r: string)
    ensures StartsWith(r, "lib.") && EndsWith(r, ".d.ts")
    ensures StartsWith(name, "lib.") && EndsWith(name, ".d.ts") ==> r == name
    ensures r == name || r == "lib." + name || r == name + ".d.ts" || r == "lib." + name + ".d.ts"
  {
    var inc := if StartsWith(name, "lib.") then name else "lib." + name;
    assert StartsWith(inc, "lib.") by {
      if !StartsWith(name, "lib.") { assert ("lib." + name)[..4] == "lib."; }
    }
    if EndsWith(inc, ".d.ts") then inc
    else
      var r := inc + ".d.ts";
      assert r[..4] == inc[..4];
      assert r[|r| - 5..] == ".d.ts";
      r
  }

  // Normalising twice is normalising once.
  lemma NormalizeIdempotent(name: string)
    ensures Normalize(Normalize(name)) == Normalize(name)
  {
  }

  // `es2015.core` names `lib.es2015.core.d.ts`.
  lemma NormalizeBare()
    ensures Normalize("es2015.core") == "lib.es2015.core.d.ts"
  {
    var name := "es2015.core";
    assert !StartsWith(name, "lib.") by {
      assert name[..4][0] == 'e' != "lib."[0];
    }
    var inc := "lib." + name;
    assert |inc| == 15;
    assert !EndsWith(inc, ".d.ts") by {
      assert inc[10..][1] == inc[11] == 'c' != ".d.ts"[1];
    }
    assert inc + ".d.ts" == "lib.es2015.core.d.ts";
  }

  // `lib.dom.d.ts` stays as it is.
  lemma NormalizeFull()
    ensures Normalize("lib.dom.d.ts") == "lib.dom.d.ts"
  {
    assert StartsWith("lib.dom.d.ts", "lib.") && EndsWith("lib.dom.d.ts", ".d.ts");
  }
}
