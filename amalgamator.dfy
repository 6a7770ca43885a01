/** Model of CreateSingleInclude.py: the script that merges the headers under
    `HippoMocks/` into one file by inlining every quoted include whose target
    exists, depth first, in source order.

    The file system is a map from path to node; a file is the sequence of lines
    Python's `for line in f` yields (each line keeps its '\n', except possibly
    the last).  The output handle is the sequence of strings handed to
    `write`.  `depth` is the interpreter's remaining recursion budget: Python
    raises a RuntimeError once it is used up, and that is what an include cycle
    ends in, since `parseFile` keeps no set of visited files. */
module Amalgamator {
  import opened Wrappers

  /** `rootPath`: every include target is looked up under this prefix. */
  const Root: string := "HippoMocks/"
  /** `rootPath + 'hippomocks.h'`, the file the expansion starts from. */
  const Entry: string := "HippoMocks/hippomocks.h"
  const Trailer: string := "#endif\n\n"

  /** `os.path.exists` is true of directories as well as files, but only a file
      can be opened. */
  datatype Node = File(lines: seq<string>) | Directory
  type FileSystem = map<string, Node>

  /** Why a run stops early: `open` failed (a missing entry file, or a
      directory), or Python's recursion limit was reached. */
  datatype Failure = CannotOpen(path: string) | RecursionLimit

  /** What a call wrote to the output handle, and the error it stopped with
      (None when it completed).  On an error the strings written before it
      stay in the output file. */
  datatype Run = Run(out: seq<string>, error: Option<Failure>)

  // ---------------------------------------------------------------------------
  // The pieces of text the script works with

  /** `\s` of Python 2's `re` on byte strings, and what `str.rstrip()` strips. */
  predicate IsSpace(c: char) {
    c == ' ' || c == '\t' || c == '\n' || c == '\r' || c as int == 11 || c as int == 12
  }

  /** `line.rstrip()`: the longest prefix of `s` that does not end in
      whitespace. */
  function RStrip(s: string): (r: string)
    ensures r <= s
    ensures r == [] || !IsSpace(r[|r| - 1])
    ensures forall i :: |r| <= i < |s| ==> IsSpace(s[i])
    decreases |s|
  {
    if s != [] && IsSpace(s[|s| - 1]) then RStrip(s[..|s| - 1]) else s
  }

  /** What the script writes for a line it does not replace. */
  function Emit(line: string): string {
    RStrip(line) + "\n"
  }

  function StartMarker(filename: string): string {
    "// start " + filename + "\n"
  }

  function EndMarker(filename: string): string {
    "// end " + filename + "\n"
  }

  /** The five banner lines; only the fourth depends on the time of the run. */
  function Banner(now: string): (b: seq<string>)
    ensures |b| == 5
  {
    [ "/*\n",
      " *  This file has been merged from multiple headers. Please don't edit it directly\n",
      " *\n",
      " *  Generated: " + now + "\n",
      " */\n" ]
  }

  // ---------------------------------------------------------------------------
  // The include pattern  \s*#\s*include\s*"(.*)"  applied with re.match

  /** `\s*`: drop leading whitespace.  The token after each `\s*` in the
      pattern is not whitespace, so the greedy match never backtracks. */
  function SkipSpace(s: string): (r: string)
    ensures |r| <= |s|
    decreases |s|
  {
    if s != [] && IsSpace(s[0]) then SkipSpace(s[1..]) else s
  }

  /** SkipSpace drops exactly the leading run of whitespace: what is left is a
      suffix that does not start with whitespace, and all that was dropped is
      whitespace. */
  lemma {:induction false} SkipSpaceDropsLeadingRun(s: string)
    ensures var r := SkipSpace(s);
            r == s[|s| - |r|..] && (r == [] || !IsSpace(r[0]))
            && forall i :: 0 <= i < |s| - |r| ==> IsSpace(s[i])
    decreases |s|
  {
    if s != [] && IsSpace(s[0]) {
      SkipSpaceDropsLeadingRun(s[1..]);
    }
  }

  /** Index of the first newline in `s`, or |s| when there is none. */
  function LineEnd(s: string): (n: nat)
    ensures n <= |s|
    ensures forall j :: 0 <= j < n ==> s[j] != '\n'
    ensures n < |s| ==> s[n] == '\n'
    decreases |s|
  {
    if s == [] || s[0] == '\n' then 0 else 1 + LineEnd(s[1..])
  }

  /** `(.*)"` after the opening quote: `.` stops at '\n' and the star is
      greedy, so the group runs up to the LAST quote before the first newline;
      there is no match when no quote precedes the first newline. */
  function QuotedCapture(s: string): (r: Option<string>)
    ensures r.Some? ==> |r.value| < |s|
    decreases |s|
  {
    if s == [] || s[0] == '\n' then None
    else match QuotedCapture(s[1..])
      case Some(p) => Some([s[0]] + p)
      case None => if s[0] == '"' then Some([]) else None
  }

  /** QuotedCapture is the greedy match: it captures the prefix before the
      last quote that precedes the first newline, and fails exactly when no
      quote precedes the first newline. */
  lemma {:induction false} QuotedCaptureIsGreedy(s: string)
    ensures var r := QuotedCapture(s);
            (r.Some? ==> |r.value| < LineEnd(s) && r.value == s[..|r.value|] && s[|r.value|] == '"'
                         && forall j :: |r.value| < j < LineEnd(s) ==> s[j] != '"')
            && (r.None? ==> forall j :: 0 <= j < LineEnd(s) ==> s[j] != '"')
    decreases |s|
  {
    if s != [] && s[0] != '\n' {
      QuotedCaptureIsGreedy(s[1..]);
    }
  }

  /** `includesParser.match(line)`, giving `m.group(1)` when it matches. */
  function ParseInclude(line: string): Option<string> {
    var a := SkipSpace(line);
    if |a| == 0 || a[0] != '#' then None
    else
      var b := SkipSpace(a[1..]);
      if |b| < 7 || b[..7] != "include" then None
      else
        var c := SkipSpace(b[7..]);
        if |c| == 0 || c[0] != '"' then None
        else QuotedCapture(c[1..])
  }

  /** A quoted include directive naming `header`, as a line read from a file. */
  function IncludeLine(header: string): string {
    "#include \"" + header + "\"\n"
  }

  /** The line is a quoted include whose target exists under the root. */
  predicate Resolves(fs: FileSystem, line: string) {
    var m := ParseInclude(line);
    m.Some? && Root + m.value in fs
  }

  // ---------------------------------------------------------------------------
  // parseFile as a function of the file system

  /** Everything `parseFile(filename)` writes, with `depth` frames left. */
  function Expand(fs: FileSystem, filename: string, depth: nat): Run
    decreases depth, 1
  {
    if depth == 0 then Run([], Some(RecursionLimit))
    else if filename !in fs || fs[filename].Directory? then Run([], Some(CannotOpen(filename)))
    else
      var body := ExpandLines(fs, fs[filename].lines, depth - 1);
      if body.error.Some? then Run([StartMarker(filename)] + body.out, body.error)
      else Run([StartMarker(filename)] + body.out + [EndMarker(filename)], None)
  }

  /** The body of the `for line in f` loop run over `lines`, in order; it stops
      at the first nested call that fails. */
  function ExpandLines(fs: FileSystem, lines: seq<string>, depth: nat): Run
    decreases depth, 3, |lines|
  {
    if lines == [] then Run([], None)
    else
      var prev := ExpandLines(fs, lines[..|lines| - 1], depth);
      if prev.error.Some? then prev
      else
        var last := ExpandLine(fs, lines[|lines| - 1], depth);
        Run(prev.out + last.out, last.error)
  }

  /** One iteration: a resolvable include is replaced by the target's
      expansion; every other line, including an include whose target does not
      exist, is written right-stripped with a newline. */
  function ExpandLine(fs: FileSystem, line: string, depth: nat): Run
    decreases depth, 2
  {
    match ParseInclude(line)
    case Some(header) =>
      if Root + header in fs then Expand(fs, Root + header, depth)
      else Run([Emit(line)], None)
    case None => Run([Emit(line)], None)
  }

  /** `generate()`: banner, the expansion of the entry file, trailer. */
  function Generated(fs: FileSystem, now: string, depth: nat): Run {
    var body := Expand(fs, Entry, depth);
    Run(Banner(now) + body.out + (if body.error.None? then [Trailer] else []), body.error)
  }

  // ---------------------------------------------------------------------------
  // The script itself: a writer whose nested parseFile appends to `out`

  class SingleInclude {
    /** The output handle: every string passed to `write`, in order. */
    var out: seq<string>
    const fs: FileSystem

    constructor (fs: FileSystem)
      ensures out == [] && this.fs == fs
    {
      out := [];
      this.fs := fs;
    }

    method Write(line: string)
      modifies this
      ensures out == old(out) + [line]
    {
      out := out + [line];
    }

    /** `parseFile(filename)`, run with `depth` frames of recursion left. */
    method ParseFile(filename: string, depth: nat) returns (error: Option<Failure>)
      modifies this
      ensures out == old(out) + Expand(fs, filename, depth).out
      ensures error == Expand(fs, filename, depth).error
      decreases depth, 0
    {
      if depth == 0 {
        return Some(RecursionLimit);
      }
      if filename !in fs || fs[filename].Directory? {
        return Some(CannotOpen(filename));
      }
      Write(StartMarker(filename));
      error := ParseLines(fs[filename].lines, depth - 1);
      if error.None? {
        Write(EndMarker(filename));
      }
    }

    /** The `for line in f` loop of `parseFile`: the lines are handled in
        order, and the first nested call that fails ends the loop. */
    method ParseLines(lines: seq<string>, depth: nat) returns (error: Option<Failure>)
      modifies this
      ensures out == old(out) + ExpandLines(fs, lines, depth).out
      ensures error == ExpandLines(fs, lines, depth).error
      decreases depth, 2
    {
      var i := 0;
      while i < |lines|
        invariant 0 <= i <= |lines|
        invariant out == old(out) + ExpandLines(fs, lines[..i], depth).out
        invariant ExpandLines(fs, lines[..i], depth).error == None
      {
        ExpandLinesStep(fs, lines, i, depth);
        ghost var done := ExpandLines(fs, lines[..i], depth).out;
        ghost var next := ExpandLine(fs, lines[i], depth).out;
        error := ParseLine(lines[i], depth);
        assert out == old(out) + done + next;
        assert old(out) + ExpandLines(fs, lines[..i + 1], depth).out == old(out) + done + next;
        if error.Some? {
          ErrorStopsTheLoop(fs, lines[..i + 1], lines[i + 1..], depth);
          assert lines[..i + 1] + lines[i + 1..] == lines;
          return;
        }
        i := i + 1;
      }
      assert lines[..|lines|] == lines;
      error := None;
    }

    /** One turn of the loop: inline a resolvable include, else write the
        line right-stripped. */
    method ParseLine(line: string, depth: nat) returns (error: Option<Failure>)
      modifies this
      ensures out == old(out) + ExpandLine(fs, line, depth).out
      ensures error == ExpandLine(fs, line, depth).error
      decreases depth, 1
    {
      var m := ParseInclude(line);
      if m.Some? && Root + m.value in fs {
        error := ParseFile(Root + m.value, depth);
      } else {
        Write(RStrip(line) + "\n");
        error := None;
      }
    }
  }

  /** `generate()`: opens a fresh output, writes the banner, expands the entry
      file and, when that completed, the trailer. */
  method Generate(fs: FileSystem, now: string, depth: nat) returns (written: seq<string>, error: Option<Failure>)
    ensures Run(written, error) == Generated(fs, now, depth)
  {
    var w := new SingleInclude(fs);
    w.Write("/*\n");
    w.Write(" *  This file has been merged from multiple headers. Please don't edit it directly\n");
    w.Write(" *\n");
    w.Write(" *  Generated: " + now + "\n");
    w.Write(" */\n");
    assert w.out == Banner(now);
    error := w.ParseFile(Entry, depth);
    if error.None? {
      w.Write(Trailer);
    }
    written := w.out;
  }

  // ---------------------------------------------------------------------------
  // Properties

  /** A quoted include of `header` is recognised and captures exactly
      `header`, whatever quotes the header itself holds. */
  lemma ParseIncludeLine(header: string)
    requires '\n' !in header
    ensures ParseInclude(IncludeLine(header)) == Some(header)
  {
    var line := IncludeLine(header);
    assert SkipSpace(line) == line;
    var b := line[1..];
    assert SkipSpace(b) == b;
    assert b[..7] == "include";
    var c := b[7..];
    assert c[0] == ' ';
    assert SkipSpace(c) == SkipSpace(c[1..]);
    assert c[1..] == "\"" + header + "\"\n";
    assert SkipSpace(c[1..]) == c[1..];
    var s := header + "\"\n";
    assert c[1..][1..] == s;
    QuoteThenNewline(header);
  }

  /** The capture of `header` followed by the closing quote and the newline
      is `header` itself: its last quote before the newline is the closing
      one. */
  lemma QuoteThenNewline(header: string)
    requires '\n' !in header
    ensures QuotedCapture(header + "\"\n") == Some(header)
  {
    var s := header + "\"\n";
    var n := LineEnd(s);
    assert s[|header| + 1] == '\n';
    assert forall j :: 0 <= j <= |header| ==> s[j] != '\n' by {
      forall j | 0 <= j <= |header| ensures s[j] != '\n' {
        if j < |header| {
          assert s[j] == header[j];
        }
      }
    }
    assert n == |header| + 1;
    assert s[|header|] == '"';
    QuotedCaptureIsGreedy(s);
    var r := QuotedCapture(s);
    assert r.Some?;
    assert |r.value| == |header|;
    assert s[..|header|] == header;
  }

  /** A directive with an angle-bracket target never matches the pattern. */
  lemma AngleIncludeNeverMatches(header: string)
    ensures ParseInclude("#include <" + header + ">\n") == None
  {
    var line := "#include <" + header + ">\n";
    assert SkipSpace(line) == line;
    assert SkipSpace(line[1..]) == line[1..];
    var c := line[1..][7..];
    assert c[0] == ' ' && c[1] == '<';
    assert SkipSpace(c) == SkipSpace(c[1..]);
    assert SkipSpace(c[1..]) == c[1..];
  }

  /** An include whose target exists under the root is replaced by the whole
      expansion of `Root + header`; the directive itself is not written. */
  lemma ResolvedIncludeIsReplaced(fs: FileSystem, header: string, depth: nat)
    requires '\n' !in header && Root + header in fs
    ensures ExpandLine(fs, IncludeLine(header), depth) == Expand(fs, Root + header, depth)
  {
    ParseIncludeLine(header);
  }

  /** An include whose target is missing under the root is written as it
      stood, minus its trailing newline, plus "\n" -- even when a file of that
      name exists next to the including file, since only the root is
      searched. */
  lemma MissingIncludePassesThrough(fs: FileSystem, header: string, depth: nat)
    requires '\n' !in header && Root + header !in fs
    ensures ExpandLine(fs, IncludeLine(header), depth) == Run([IncludeLine(header)], None)
  {
    ParseIncludeLine(header);
    var line := IncludeLine(header);
    var directive := "#include \"" + header + "\"";
    assert line[..|line| - 1] == directive;
    assert RStrip(line) == RStrip(directive);
    assert directive[|directive| - 1] == '"';
    assert RStrip(directive) == directive;
    assert Emit(line) == line;
    assert ExpandLine(fs, line, depth) == Run([Emit(line)], None);
  }

  /** The loop is a fold over the lines: processing `a + b` writes what
      processing `a` writes followed by what processing `b` writes. */
  lemma {:induction false} ExpandLinesAppend(fs: FileSystem, a: seq<string>, b: seq<string>, depth: nat)
    requires ExpandLines(fs, a, depth).error.None?
    ensures ExpandLines(fs, a + b, depth)
         == Run(ExpandLines(fs, a, depth).out + ExpandLines(fs, b, depth).out, ExpandLines(fs, b, depth).error)
    decreases |b|
  {
    if b == [] {
      assert a + b == a;
    } else {
      var b' := b[..|b| - 1];
      assert (a + b)[..|a + b| - 1] == a + b';
      assert (a + b)[|a + b| - 1] == b[|b| - 1];
      ExpandLinesAppend(fs, a, b', depth);
    }
  }

  /** Splicing in place: the expansion of the lines before a resolvable
      include, then the target's full expansion, then (when that completed)
      the expansion of the lines after it. */
  lemma IncludeSplicedInPlace(fs: FileSystem, before: seq<string>, header: string, after: seq<string>, depth: nat)
    requires '\n' !in header && Root + header in fs
    requires ExpandLines(fs, before, depth).error.None?
    ensures var target := Expand(fs, Root + header, depth);
            ExpandLines(fs, before + [IncludeLine(header)] + after, depth).out
            == ExpandLines(fs, before, depth).out + target.out
               + (if target.error.None? then ExpandLines(fs, after, depth).out else [])
  {
    var line := IncludeLine(header);
    ResolvedIncludeIsReplaced(fs, header, depth);
    assert ExpandLines(fs, [line], depth) == ExpandLine(fs, line, depth) by {
      assert [line][..0] == [];
    }
    ExpandLinesAppend(fs, before, [line], depth);
    var target := Expand(fs, Root + header, depth);
    if target.error.None? {
      ExpandLinesAppend(fs, before + [line], after, depth);
    } else {
      ErrorStopsTheLoop(fs, before + [line], after, depth);
    }
  }

  /** One more iteration of the loop, after iterations that completed. */
  lemma ExpandLinesStep(fs: FileSystem, lines: seq<string>, i: nat, depth: nat)
    requires i < |lines|
    requires ExpandLines(fs, lines[..i], depth).error.None?
    ensures ExpandLines(fs, lines[..i + 1], depth)
         == Run(ExpandLines(fs, lines[..i], depth).out + ExpandLine(fs, lines[i], depth).out,
                ExpandLine(fs, lines[i], depth).error)
  {
    assert lines[..i + 1][..i] == lines[..i];
  }

  /** Once the loop has failed, later lines write nothing more. */
  lemma {:induction false} ErrorStopsTheLoop(fs: FileSystem, a: seq<string>, b: seq<string>, depth: nat)
    requires ExpandLines(fs, a, depth).error.Some?
    ensures ExpandLines(fs, a + b, depth) == ExpandLines(fs, a, depth)
    decreases |b|
  {
    if b == [] {
      assert a + b == a;
    } else {
      var b' := b[..|b| - 1];
      assert (a + b)[..|a + b| - 1] == a + b';
      ErrorStopsTheLoop(fs, a, b', depth);
    }
  }

  /** Lines that are not resolvable includes -- ordinary code, angle-bracket
      includes, includes of missing files -- come out one for one, in order,
      right-stripped with a newline. */
  lemma {:induction false} PlainLinesKeepOrder(fs: FileSystem, lines: seq<string>, depth: nat)
    requires forall i :: 0 <= i < |lines| ==> !Resolves(fs, lines[i])
    ensures ExpandLines(fs, lines, depth).error.None?
    ensures ExpandLines(fs, lines, depth).out == seq(|lines|, i requires 0 <= i < |lines| => Emit(lines[i]))
    decreases |lines|
  {
    if lines != [] {
      var front := lines[..|lines| - 1];
      PlainLinesKeepOrder(fs, front, depth);
      var last := lines[|lines| - 1];
      assert !Resolves(fs, last);
      assert ExpandLine(fs, last, depth) == Run([Emit(last)], None);
      var e := ExpandLines(fs, lines, depth).out;
      assert e == ExpandLines(fs, front, depth).out + [Emit(last)];
    }
  }

  /** No single-inclusion: a target included twice is expanded twice. */
  lemma RepeatedIncludeExpandedTwice(fs: FileSystem, header: string, depth: nat)
    requires '\n' !in header && Root + header in fs
    requires Expand(fs, Root + header, depth).error.None?
    ensures var once := Expand(fs, Root + header, depth).out;
            ExpandLines(fs, [IncludeLine(header), IncludeLine(header)], depth).out == once + once
  {
    var line := IncludeLine(header);
    IncludeSplicedInPlace(fs, [], header, [line], depth);
    assert [] + [line] + [line] == [line, line];
    assert ExpandLines(fs, [line], depth) == ExpandLine(fs, line, depth) by {
      assert [line][..0] == [];
    }
    ResolvedIncludeIsReplaced(fs, header, depth);
  }

  /** A completed loop completed every one of its iterations. */
  lemma {:induction false} CompletedLinesEachCompleted(fs: FileSystem, lines: seq<string>, depth: nat, k: nat)
    requires k < |lines|
    requires ExpandLines(fs, lines, depth).error.None?
    ensures ExpandLine(fs, lines[k], depth).error.None?
    decreases |lines|
  {
    if k < |lines| - 1 {
      CompletedLinesEachCompleted(fs, lines[..|lines| - 1], depth, k);
    }
  }

  /** No cycle detection: a file that includes itself never completes, for
      any recursion budget; the run always ends in an error. */
  lemma {:induction false} SelfIncludeNeverCompletes(fs: FileSystem, path: string, k: nat, depth: nat)
    requires path in fs && fs[path].File? && k < |fs[path].lines|
    requires var m := ParseInclude(fs[path].lines[k]); m.Some? && Root + m.value == path
    ensures Expand(fs, path, depth).error.Some?
    decreases depth
  {
    if depth > 0 && Expand(fs, path, depth).error.None? {
      var lines := fs[path].lines;
      CompletedLinesEachCompleted(fs, lines, depth - 1, k);
      assert ExpandLine(fs, lines[k], depth - 1) == Expand(fs, path, depth - 1);
      SelfIncludeNeverCompletes(fs, path, k, depth - 1);
    }
  }

  /** Once an expansion completes, a larger recursion budget changes nothing:
      the output depends only on the file system. */
  lemma {:induction false} ExpandStable(fs: FileSystem, filename: string, depth: nat)
    requires Expand(fs, filename, depth).error.None?
    ensures Expand(fs, filename, depth + 1) == Expand(fs, filename, depth)
    decreases depth, 1
  {
    ExpandLinesStable(fs, fs[filename].lines, depth - 1);
  }

  lemma {:induction false} ExpandLinesStable(fs: FileSystem, lines: seq<string>, depth: nat)
    requires ExpandLines(fs, lines, depth).error.None?
    ensures ExpandLines(fs, lines, depth + 1) == ExpandLines(fs, lines, depth)
    decreases depth, 3, |lines|
  {
    if lines != [] {
      ExpandLinesStable(fs, lines[..|lines| - 1], depth);
      ExpandLineStable(fs, lines[|lines| - 1], depth);
    }
  }

  lemma {:induction false} ExpandLineStable(fs: FileSystem, line: string, depth: nat)
    requires ExpandLine(fs, line, depth).error.None?
    ensures ExpandLine(fs, line, depth + 1) == ExpandLine(fs, line, depth)
    decreases depth, 2
  {
    var m := ParseInclude(line);
    if m.Some? && Root + m.value in fs {
      ExpandStable(fs, Root + m.value, depth);
    }
  }

  /** A completed expansion of `filename` starts with its start marker and
      ends with its end marker; a failed one has no end marker. */
  lemma ExpansionBracketed(fs: FileSystem, filename: string, depth: nat)
    requires Expand(fs, filename, depth).out != []
    ensures Expand(fs, filename, depth).out[0] == StartMarker(filename)
    ensures Expand(fs, filename, depth).error.None? ==>
              Expand(fs, filename, depth).out[|Expand(fs, filename, depth).out| - 1] == EndMarker(filename)
  {
  }

  /** Two runs on the same tree differ at most in the "Generated:" line. */
  lemma OnlyTimestampDiffers(fs: FileSystem, t1: string, t2: string, depth: nat)
    ensures |Generated(fs, t1, depth).out| == |Generated(fs, t2, depth).out|
    ensures Generated(fs, t1, depth).error == Generated(fs, t2, depth).error
    ensures forall i :: 0 <= i < |Generated(fs, t1, depth).out| && i != 3 ==>
              Generated(fs, t1, depth).out[i] == Generated(fs, t2, depth).out[i]
  {
  }
}
