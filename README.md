# dtsmerge, modelled in Dafny

dtsmerge merges TypeScript declaration files into one. It follows the
`/// <reference lib="..."/>` directives of each input file depth-first and
inlines every referenced library file once. It can also strip comments from
the output. With `--keep` it preserves the first block comment of the first
file, such as a license header. It can prepend a license file and wrap each
included file in `// START OF` / `// END OF` markers.

The project models the program's one source file, `src/index.ts`, in seven
modules:

- `Text` (`strings.dfy`): prefix and suffix tests, `join`, the
  `split(/\r?\n/)` line split, and the subsequence relation.
- `Scanner` (`scanner.dfy`): the comment remover `getCommentFreeLine`.
  - The spec function `Scan` is defined by one step function over the loop's
    variables.
  - `GetCommentFreeLine` is the loop as written, with `continue` and
    `break`, proved equal to `Scan`.
  - Lemmas split a line at its comment markers and state the result piece by
    piece. This covers both quirks of the code:
    - `/*/` does not close.
    - A line that ends inside a preserved block comment loses its last
      character.
- `Directive` (`directive.dfy`): a hand-written matcher for the directive
  regular expression, with the normalisation of the captured name into a
  file name.
- `Walker` (`walker.dfy`): `processFile`.
  - `Walk`, `WalkLines` and `WalkLine` are the mutually recursive
    specification over a map from paths to contents. They terminate because
    a path is marked as included before it is read.
  - The class `Merger` holds the program's `includedFilePaths`, `outLines`
    and `isFirstFile` as fields. Its recursive methods are proved to leave
    exactly the state the specification computes.
- `WalkFacts` (`walk_facts.dfy`): properties that relate whole walks.
- `Cli` (`cli.dfy`): the loop over the command-line arguments, as a total
  parser (`ParseFrom`) and as the loop itself (`ParseArgs`).
- `Output` (`output.dfy`): the top level of a run.
  - `MergeSpec` and the method `Run` read the license header, walk every
    input file in order, and produce the license followed by the collected
    entries joined with `\n`.
  - A file that cannot be read becomes an error result.

Several things the program does not own are passed in as parameters:

- The file system is a `map<string, string>` from readable paths to their
  contents.
- Node's `path.dirname`, `path.join`, `path.basename` and `path.isAbsolute`
  are functions packed in `PathOps`.
- `args` is `process.argv` without its first two entries.

## Model

| member | source | states |
|---|---|---|
| Scanner.GetCommentFreeLine | src/index.ts:48-101 | The loop returns exactly `Scan(line, inBlockComment, keepFirstBlockComment)`. The cleaned line is a subsequence of the input and never longer. |
| Scanner.CleanedIsSubsequence | src/index.ts:56-98 | For every line and both flags, the cleaned line is the input with characters left out. Each kept `/*` or `*/` stands for the same two input characters. |
| Scanner.PlainLine | src/index.ts:56-98 | A line outside a comment with no `//` and no `/*` comes back as itself. It is outside a comment, not dropped (even when empty), and reports nothing preserved. |
| Scanner.LineComment | src/index.ts:72-76 | Outside a comment, the text before the first `//` is kept verbatim and the rest of the line is ignored. The line is dropped exactly when that text is empty. |
| Scanner.TrailingLineComment | src/index.ts:72-76 | `a(); // c` becomes `a(); `, keeping its trailing space. |
| Scanner.OpenComment | src/index.ts:77-85 | The first `/*` outside a comment keeps the text before it and emits the opener only when preservation is requested. The rest is scanned as a line that begins inside the comment. |
| Scanner.OpenerThenSlash | src/index.ts:77-80 | `/*/` leaves the comment open and is dropped. A preserved `/**` line yields `/*` and stays open. |
| Scanner.CloseComment | src/index.ts:58-71 | Inside an unpreserved comment, nothing up to the first `*/` is emitted. The rest is scanned as a line outside a comment, and the drop flag is recomputed for the whole line. |
| Scanner.CloseKeptComment | src/index.ts:58-67 | Inside a preserved comment, the body and its `*/` are emitted and the comment is reported as preserved. Any later comment on the line is stripped, not preserved. |
| Scanner.KeptBlockComment | src/index.ts:81-84 | A preserved block comment alone on a line, such as `/** lic */`, comes back unchanged, is not dropped, and is reported as preserved. |
| Scanner.InsideComment | src/index.ts:68-96 | A line inside a comment with no `*/` leaves the comment open. Unpreserved, it is emptied and dropped. Preserved, it is emitted without its last character. |
| Scanner.NoKeepNoCapture | src/index.ts:61-63 | Without the preserve flag, no line reports a preserved comment. |
| Scanner.DropFlag | src/index.ts:100 | The line is dropped if and only if the cleaned line is empty and the line began inside a comment or holds a `//` or `/*`. |
| Scanner.SeenCommentSticks | src/index.ts:52 | Once a comment has been seen, the line is dropped exactly when its cleaned form is empty. |
| Directive.SkipSpaces | src/index.ts:9 | A greedy `\s*`: what is skipped is all whitespace, and what is left does not start with whitespace. |
| Directive.NameEnd | src/index.ts:9 | The lazy `(.+?)\2`: the least index at which the same quote closes the name with `/>` later on the line, without crossing a line terminator. `None` means no index closes it. |
| Directive.LibName | src/index.ts:9 | A captured name means the line starts with `///`. The name is non-empty and holds no line terminator. |
| Directive.LibNameExact | src/index.ts:9 | A line yields `name` if and only if it is `///`, optional spaces, `<reference`, at least one space, `lib`, spaces, `=`, spaces, a quote, `name`, the same quote, then attributes without line breaks, `/>`, and any rest. |
| Directive.MatchDirectiveLine | src/index.ts:135-137 | Every directive in an accepted layout is recognised, and the captured name is exactly the text between the quotes. |
| Directive.NoLeadingSpace | src/index.ts:9 | A line that starts with whitespace is never a directive. |
| Directive.Normalize | src/index.ts:137-143 | The result starts with `lib.` and ends with `.d.ts`. A name with both already is left as it is. Otherwise at most `lib.` is prepended and `.d.ts` appended. |
| Directive.NormalizeIdempotent | src/index.ts:137-143 | Normalising twice is the same as normalising once. |
| Directive.NormalizeBare | src/index.ts:137-143 | `es2015.core` names `lib.es2015.core.d.ts`. |
| Directive.NormalizeFull | src/index.ts:137-143 | `lib.dom.d.ts` is left unchanged. |
| Text.SplitLines | src/index.ts:128 | There is always at least one piece, and no piece holds `\n`. |
| Text.JoinSplitLines | src/index.ts:128 | Splitting a text that has no `\r\n` and joining the pieces with `\n` gives the text back. |
| Text.SplitLinesJoin | src/index.ts:128 | Joining lines that hold no `\n` and do not end in `\r`, then splitting, gives the lines back. |
| Walker.Walk | src/index.ts:103-168 | A path that is already included leaves the state unchanged. A read error names a path that does not exist. A completed walk only adds to the included paths, and the walked path is among them. |
| Walker.WalkLines | src/index.ts:132-162 | A read error names a missing path, and the included paths only grow. |
| Walker.WalkLine | src/index.ts:134-160 | A read error names a missing path, and the included paths only grow. |
| Walker.LineOut | src/index.ts:145-160 | A line that is not a directive appends at most one entry and changes nothing else in the state. |
| Walker.WalkGrows | src/index.ts:106-115 | A completed walk only appends to the output. Every path it reads was readable, not included before, and read once. The newly included paths are exactly the ones it read. `isFirstFile` is cleared exactly when something was read. |
| Walker.WalkNew | src/index.ts:110-166 | A walk into a new path reads that path first and emits its start entry first. With info comments on, its `// END OF` marker comes last. |
| Walker.Merger.constructor | src/index.ts:20-22 | The run starts with nothing included, no output and `isFirstFile` set. |
| Walker.Merger.ProcessFile | src/index.ts:103-168 | The method succeeds exactly when `Walk` does. It then leaves exactly `Walk`'s state. Otherwise it reports the path that could not be read. |
| Walker.Merger.ProcessLines | src/index.ts:130-162 | The loop over a file's lines, starting outside a comment, succeeds exactly when `WalkLines` does. It then leaves exactly its state, and otherwise reports the missing path. |
| Walker.Merger.ProcessLine | src/index.ts:134-161 | The callback agrees with `WalkLine`: the same new state, comment state and preserved flag, or the same missing path. |
| WalkFacts.VerbatimLines | src/index.ts:158-160 | Without `--stripcomm`, lines without directives are appended exactly as written. |
| WalkFacts.StripPlainLines | src/index.ts:145-156 | With `--stripcomm`, lines outside a comment with no directive, `//` or `/*` are appended exactly as written, empty ones included. |
| WalkFacts.DirectiveInlines | src/index.ts:134-144 | A directive line emits nothing of its own. A target already included changes nothing, and a missing target ends the walk with its path. Otherwise the target's walk takes the line's place: it reads the target first and emits its start entry first, keeps all earlier output, and ends with the end marker under `--info`. The rest of the file continues from that state with the same comment state. |
| WalkFacts.VerbatimFile | src/index.ts:103-168 | A new readable file without directives, not stripped, yields its start entry, its lines and its end entries. Only that file is read. |
| WalkFacts.WalkKeep | src/index.ts:149 | `--keep` makes no difference to a walk unless comments are stripped and the first file is still to be opened. |
| WalkFacts.SelfReference | src/index.ts:106-115 | A one-line file whose directive resolves to itself is read once and terminates. Without info comments, it contributes only its start entry. |
| Cli.ParseFrom | src/index.ts:175-225 | A merge always names at least one input file. |
| Cli.ParseArgs | src/index.ts:171-225 | The loop as written, with `i` advanced inside the switch, returns exactly `Parse(args)`. |
| Cli.ParseFromInputs | src/index.ts:213-218 | The input files are a subsequence of the inputs gathered so far followed by the tokens still to read. |
| Cli.ParseInputs | src/index.ts:217-225 | A merge names at least one input. Its inputs are a subsequence of the command line, and none of them is a recognised switch. |
| Cli.ParseFromPlain | src/index.ts:175-218 | When no remaining token is `-o`, `-l` or help, the loop returns `PlainParse`: every token that is not a switch becomes an input, in order. |
| Cli.ParsePlain | src/index.ts:175-225 | Without `-o`, `-l` or help, the inputs are exactly the non-switch tokens in their order, and each flag is set exactly when one of its spellings is given. No such token is the "no input file specified" error. |
| Cli.OutTakesSwitch | src/index.ts:184-191 | `-o -s a.d.ts` makes `-s` the output path and `a.d.ts` the only input. |
| Cli.TrailingValue | src/index.ts:186-199 | A trailing `-o` or `--license` is an error, with its own message, even after an input file. |
| Cli.NoInputs | src/index.ts:171-225 | Options without files are the "no input file specified" error. Help wins over a later bad `-o`. No arguments print the help. |
| Output.WalkAll | src/index.ts:237-239 | A read error names a path that does not exist. |
| Output.WalkAllGrows | src/index.ts:237-239 | A completed run over the inputs is a walk in the sense above, and it includes every input file. |
| Output.ReadOnce | src/index.ts:106-115 | Over a whole run, no path is read twice and every path read was readable. The paths read are exactly the included paths, and every input file is among them. |
| Output.RepeatedInput | src/index.ts:237-239 | Naming an input file twice gives the same result as naming it once. |
| Output.MergeSpec | src/index.ts:227-241 | The license error happens if and only if a license file is named and missing, and it names that file. A library error names a missing path. |
| Output.Run | src/index.ts:227-241 | The program after the argument loop, driving one `Merger`, returns exactly `MergeSpec`. |
| Output.LicenseFirst | src/index.ts:229-241 | With a license file, the output starts with that file's contents. |
| Output.KeepNeedsStrip | src/index.ts:145-160 | Without `--stripcomm`, `--keep` changes nothing in the result. |
| Output.SingleFileVerbatim | src/index.ts:126-241 | With one input that has no directive and no `\r\n`, and no switches, the output is `"\n\n"` followed by the file as written. |

## Left out

- Reading files is modelled as lookup in the map. Writing the output file
  (`writeFileSync`) and printing it (`console.log`, which adds a newline of
  its own) are left out. The model stops at the output text.
- `process.exit`, `console.error` and the exit statuses are not modelled.
  Help is the `Help` result, a command-line error is `ConfigError` with the
  message, and an unreadable file is `LicenseError` or `LibraryError` with
  its path. A library read error therefore discards all output, as the
  program exits before writing.
- The help text of `printHelp` is I/O and is left out.
- Node's `path` functions are abstract (`PathOps`). Normalisation of `..`,
  separators and platform rules belong to Node. The included set is keyed by
  the exact string passed in.
- Walker.Walk and Walker.Merger.ProcessFile treat only the paths already
  passed in as included. The program's set is a plain object, so its test
  `includedFilePaths[filePath]` is also true for names inherited from
  `Object.prototype` (`constructor`, `toString`, `__proto__` and the like).
  Such a path is skipped without being read. The model reads it like any
  other path.
- Cli.ParsePlain gives the exact inputs only for command lines without
  `-o`, `-l` or help. With `-o` or `-l`, only one direction is proved
  (Cli.ParseInputs): the inputs are a subsequence of the tokens and none is a
  switch.
- Strings are sequences of Dafny characters, not JavaScript's UTF-16 code
  units. Content with characters outside the Basic Multilingual Plane is not
  modelled unit by unit.
- The directive matcher is written for this one regular expression. It uses
  ECMAScript's `\s` set and line terminators, not a regular-expression engine.
- Directives are recognised on any line, even inside a block comment, as the
  program does. The model keeps that and proves nothing about it.
- `bin/index.js` is the compiled copy of `src/index.ts` and is not part of
  this model.
- The ghost field `trace`, the order in which paths were read, exists only
  to state that each path is read once. The program has no such variable.
