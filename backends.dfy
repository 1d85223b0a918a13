/** The grid backend: translation of logical paths, the conversions between a
    tool's text output and its lines, the replica listing, and the decisions
    `replicate` and `get` take before they hand the work to the LCG tools.
    The tools and the storage-element catalogue are given as functions. */
module Backends {
  import opened Wrappers
  import opened Strings
  import PosixPath
  import Storage

  /** One run of an external tool: whether it ended with an accepted exit
      code, the lines it wrote (each ending in a newline), and its error text. */
  datatype CmdResult = CmdResult(ok: bool, lines: seq<string>, stderr: string)

  /** The LCG command-line tools, each a function of its argument vector. */
  datatype Tools = Tools(
    lfcLs: seq<string> -> CmdResult,
    lcgLr: seq<string> -> CmdResult,
    lcgLs: seq<string> -> CmdResult,
    lcgGetChecksum: seq<string> -> CmdResult,
    lcgRep: seq<string> -> CmdResult,
    lcgCp: seq<string> -> CmdResult)

  /** The storage-element queries the backend relies on:
      `storage.get_SE`, `se.has_replica`, `se.get_closest_SE`,
      `storage.get_closest_SE` and `se.get_replica`. */
  datatype Catalog = Catalog(
    getSE: string -> Option<Storage.StorageElement>,
    hasReplica: (Storage.StorageElement, string) -> bool,
    closestTo: (Storage.StorageElement, string, bool) -> Option<Storage.StorageElement>,
    closest: (string, bool) -> Option<Storage.StorageElement>,
    getReplica: (Storage.StorageElement, string) -> string)

  /** The exceptions the backend lets through. `CommandFailed` is
      `sh.ErrorReturnCode`, whether a tool or the backend raised it;
      `TypeError` is a call that names a keyword argument twice. */
  datatype Error =
    | CommandFailed(message: string)
    | BackendException(message: string)
    | IndexError
    | AttributeError
    | TypeError(keyword: string)
    | ConfigError(option: string, message: string)

  /** What a backend call returns: a block of text, or its lines one by one. */
  datatype Output = Text(text: string) | Lines(lines: seq<string>)

  /** An `LCGBackend`: its base directory and its tools. */
  datatype Backend = Backend(basedir: string, tools: Tools)

  const DefaultBasedir := "/t2k.org"

  /** `LCGBackend.__init__`: the LFC namespace puts `/grid` above the base
      directory, which defaults to `/t2k.org`. */
  function NewLCGBackend(basedir: Option<string>, tools: Tools): (b: Backend)
    ensures StartsWith(b.basedir, "/grid")
    ensures b.basedir[5..] == if basedir.Some? then basedir.value else DefaultBasedir
    ensures b.tools == tools
  {
    Backend("/grid" + (if basedir.Some? then basedir.value else DefaultBasedir), tools)
  }

  /** `full_path`: the base directory and the relative path concatenated,
      then normalised. */
  function FullPath(b: Backend, relpath: string): string {
    PosixPath.Normpath(b.basedir + relpath)
  }

  /** A full path is in normal form, normalising it again changes nothing,
      and it is absolute whenever the base directory is. */
  lemma FullPathNormal(b: Backend, relpath: string)
    ensures PosixPath.NormalForm(FullPath(b, relpath))
    ensures PosixPath.Normpath(FullPath(b, relpath)) == FullPath(b, relpath)
    ensures PosixPath.IsAbs(b.basedir) ==> PosixPath.IsAbs(FullPath(b, relpath))
  {
    PosixPath.NormpathIsNormal(b.basedir + relpath);
    PosixPath.NormpathIdempotent(b.basedir + relpath);
    if PosixPath.IsAbs(b.basedir) {
      assert (b.basedir + relpath)[0] == '/';
    }
  }

  /** Every path of an LCG backend is absolute, whatever its base directory. */
  lemma LCGFullPathAbsolute(basedir: Option<string>, tools: Tools, relpath: string)
    ensures PosixPath.IsAbs(FullPath(NewLCGBackend(basedir, tools), relpath))
  {
    FullPathNormal(NewLCGBackend(basedir, tools), relpath);
  }

  /** The argument vector of `lfc-ls`: `-l` exactly when `long`, `-d` exactly
      when `directory`, in that order, and the path last. */
  function LsArgsOf(long: bool, directory: bool, path: string): (args: seq<string>)
    ensures |args| >= 1 && args[|args| - 1] == path
    ensures "-l" in args[..|args| - 1] <==> long
    ensures "-d" in args[..|args| - 1] <==> directory
    ensures forall k :: 0 <= k < |args| - 1 ==> args[k] == "-l" || args[k] == "-d"
    ensures long ==> args[0] == "-l"
  {
    if long && directory then
      assert ["-l", "-d", path][..2] == ["-l", "-d"];
      ["-l", "-d", path]
    else if long then
      assert ["-l", path][..1] == ["-l"];
      ["-l", path]
    else if directory then
      assert ["-d", path][..1] == ["-d"];
      ["-d", path]
    else
      [path]
  }

  /** `LCGBackend._ls` building its argument list by appending. */
  method LsArgs(long: bool, directory: bool, path: string) returns (args: seq<string>)
    ensures args == LsArgsOf(long, directory, path)
  {
    args := [];
    if long {
      args := args + ["-l"];
    }
    if directory {
      args := args + ["-d"];
    }
    args := args + [path];
  }

  /** `lfc-ls` run on a full path. */
  function RunLs(b: Backend, path: string, long: bool, directory: bool): CmdResult {
    b.tools.lfcLs(LsArgsOf(long, directory, path))
  }

  /** Whether a long directory listing shows a directory: its first
      non-whitespace character is `d`. A listing that is all whitespace has
      no such character and raises `IndexError`. */
  function DirFlag(listing: string): (r: Result<bool, Error>)
    ensures r.Failure? <==> Blank(listing)
    ensures r.Failure? ==> r.error == IndexError
    ensures r.Success? ==> exists i :: FirstNonSpace(listing, i) && (r.value <==> listing[i] == 'd')
  {
    var l := TrimLeft(listing);
    var s := Strip(listing);
    assert s == TrimRight(l);
    if s == [] then
      Failure(IndexError)
    else
      var k := |listing| - |l|;
      assert listing[k] == l[0] == s[0];
      assert FirstNonSpace(listing, k);
      Success(s[0] == 'd')
  }

  /** A string of whitespace only. */
  predicate Blank(s: string) {
    forall i :: 0 <= i < |s| ==> IsSpace(s[i])
  }

  /** `s[i]` is the first character of `s` that is not whitespace. */
  predicate FirstNonSpace(s: string, i: int) {
    0 <= i < |s| && !IsSpace(s[i]) && forall j :: 0 <= j < i ==> IsSpace(s[j])
  }

  /** `_is_dir`: a long listing of the path itself, with `-d`, shows a
      directory when its first non-whitespace character is `d`. A failing
      `lfc-ls` raises, and so does a listing with no such character. */
  function IsDir(b: Backend, path: string): (r: Result<bool, Error>)
    ensures var res := RunLs(b, path, true, true);
            var listing := Concat(res.lines);
            && (!res.ok ==> r == Failure(CommandFailed(res.stderr)))
            && (res.ok ==> (r.Failure? <==> Blank(listing)))
            && (r.Success? ==> exists i :: FirstNonSpace(listing, i) && (r.value <==> listing[i] == 'd'))
  {
    var res := RunLs(b, path, true, true);
    if !res.ok then Failure(CommandFailed(res.stderr)) else DirFlag(Concat(res.lines))
  }

  /** A line as the tools yield it: ending in its only newline. */
  predicate IsLine(l: string) {
    l != [] && l[|l| - 1] == '\n' && NoChar(l[..|l| - 1], '\n')
  }

  /** Each piece with a newline appended. */
  function Terminate(pieces: seq<string>): (r: seq<string>)
    ensures |r| == |pieces| && forall i :: 0 <= i < |r| ==> r[i] == pieces[i] + "\n"
  {
    seq(|pieces|, i requires 0 <= i < |pieces| => pieces[i] + "\n")
  }

  /** `_iterable_output_from_text`: the text unchanged, or its lines, each
      ending in a newline. Empty text raises `IndexError` when lines are
      asked for. */
  function FromText(text: string, iter: bool): (r: Result<Output, Error>)
    ensures !iter ==> r == Success(Text(text))
    ensures iter ==> (r.Failure? <==> text == "")
    ensures iter && r.Failure? ==> r.error == IndexError
    ensures iter && r.Success? ==> r.value.Lines?
  {
    if !iter then Success(Text(text))
    else if text == "" then Failure(IndexError)
    else
      var pieces := Split(text, '\n');
      var kept := if text[|text| - 1] == '\n' then pieces[..|pieces| - 1] else pieces;
      Success(Lines(Terminate(kept)))
  }

  /** `_iterable_output_from_iterable`'s result: the lines, or their concatenation. */
  function ToOutput(lines: seq<string>, iter: bool): (r: Output)
    ensures r.Lines? <==> iter
  {
    if iter then Lines(lines) else Text(Concat(lines))
  }

  /** `_iterable_output_from_iterable`, concatenating in a loop. */
  method IterableOutputFromIterable(lines: seq<string>, iter: bool) returns (r: Output)
    ensures r == ToOutput(lines, iter)
  {
    if iter {
      return Lines(lines);
    }
    var text := "";
    for i := 0 to |lines|
      invariant text == Concat(lines[..i])
    {
      assert lines[..i + 1][..i] == lines[..i];
      text := text + lines[i];
    }
    assert lines[..|lines|] == lines;
    r := Text(text);
  }

  lemma {:induction false} ConcatTerminate(parts: seq<string>)
    requires parts != []
    ensures Concat(Terminate(parts)) == JoinWith(parts, '\n') + "\n"
  {
    var x, rest := parts[0], parts[1..];
    TerminateCons(parts);
    ConcatCons(x + "\n", Terminate(rest));
    if |parts| > 1 {
      ConcatTerminate(rest);
      assert JoinWith(parts, '\n') == x + "\n" + JoinWith(rest, '\n');
      AppendAssoc(x + "\n", JoinWith(rest, '\n'), "\n");
    } else {
      assert Terminate(rest) == [];
    }
  }

  lemma TerminateCons(parts: seq<string>)
    requires parts != []
    ensures Terminate(parts) == [parts[0] + "\n"] + Terminate(parts[1..])
  {
    var r := [parts[0] + "\n"] + Terminate(parts[1..]);
    forall i | 0 <= i < |parts| ensures Terminate(parts)[i] == r[i] {
      if i > 0 {
        assert r[i] == Terminate(parts[1..])[i - 1];
      }
    }
  }

  lemma {:induction false} SplitSnoc(s: string, c: char)
    ensures Split(s + [c], c) == Split(s, c) + [""]
  {
    if s == [] {
      assert [c][1..] == [];
    } else {
      assert (s + [c])[1..] == s[1..] + [c];
      SplitSnoc(s[1..], c);
    }
  }

  /** The lines of a non-empty text end in newlines and put the text back
      together, with a newline added when it lacked a final one. */
  lemma FromTextLines(text: string)
    requires text != ""
    ensures FromText(text, true).Success?
    ensures forall l :: l in FromText(text, true).value.lines ==> IsLine(l)
    ensures Concat(FromText(text, true).value.lines) == if EndsWith(text, "\n") then text else text + "\n"
  {
    FromTextAreLines(text);
    FromTextConcat(text);
  }

  lemma FromTextAreLines(text: string)
    requires text != ""
    ensures forall l :: l in FromText(text, true).value.lines ==> IsLine(l)
  {
    var pieces := Split(text, '\n');
    var kept := if text[|text| - 1] == '\n' then pieces[..|pieces| - 1] else pieces;
    assert FromText(text, true).value.lines == Terminate(kept);
    assert forall k :: 0 <= k < |kept| ==> NoChar(kept[k], '\n') by {
      forall k | 0 <= k < |kept| ensures NoChar(kept[k], '\n') {
        assert kept[k] == pieces[k];
      }
    }
    TerminateLines(kept);
  }

  lemma FromTextConcat(text: string)
    requires text != ""
    ensures Concat(FromText(text, true).value.lines) == if EndsWith(text, "\n") then text else text + "\n"
  {
    var pieces := Split(text, '\n');
    if text[|text| - 1] == '\n' {
      var front := text[..|text| - 1];
      assert text == front + "\n";
      SplitSnoc(front, '\n');
      assert pieces[..|pieces| - 1] == Split(front, '\n');
      assert FromText(text, true).value.lines == Terminate(Split(front, '\n'));
      ConcatTerminateSplit(front);
      assert EndsWith(text, "\n");
    } else {
      assert FromText(text, true).value.lines == Terminate(pieces);
      ConcatTerminateSplit(text);
      assert !EndsWith(text, "\n") by {
        assert text[|text| - 1..][0] != '\n';
      }
    }
  }

  /** Pieces free of newlines, each with a newline appended, are lines. */
  lemma TerminateLines(kept: seq<string>)
    requires forall k :: 0 <= k < |kept| ==> NoChar(kept[k], '\n')
    ensures forall l :: l in Terminate(kept) ==> IsLine(l)
  {
    var lines := Terminate(kept);
    forall l | l in lines ensures IsLine(l) {
      var i :| 0 <= i < |lines| && lines[i] == l;
      assert l[..|l| - 1] == kept[i];
    }
  }

  /** The pieces of a text split at newlines, each terminated, give back the
      text with a final newline. */
  lemma ConcatTerminateSplit(s: string)
    ensures Concat(Terminate(Split(s, '\n'))) == s + "\n"
  {
    JoinSplit(s, '\n');
    ConcatTerminate(Split(s, '\n'));
  }

  /** Turning lines into text and the text back into lines gives the same
      lines, for any non-empty run of lines as the tools yield them. */
  lemma LinesRoundTrip(lines: seq<string>)
    requires lines != []
    requires forall l :: l in lines ==> IsLine(l)
    ensures FromText(ToOutput(lines, false).text, true) == Success(ToOutput(lines, true))
  {
    forall i | 0 <= i < |lines| ensures |lines[i]| > 0 {
      assert lines[i] in lines;
    }
    var ps := seq(|lines|, i requires 0 <= i < |lines| && |lines[i]| > 0 => lines[i][..|lines[i]| - 1]);
    forall i | 0 <= i < |lines| ensures ps[i] + "\n" == lines[i] && NoChar(ps[i], '\n') {
      assert lines[i] in lines;
    }
    assert Terminate(ps) == lines;
    ConcatTerminate(ps);
    var text := Concat(lines);
    var front := JoinWith(ps, '\n');
    assert text == front + ['\n'];
    SplitSnoc(front, '\n');
    SplitJoin(ps, '\n');
    assert text[..|text| - 1] == front;
  }

  /** The lines `_ignore_identical_lines` yields after the line `last`. */
  function DedupAfter(lines: seq<string>, last: Option<string>): (r: seq<string>)
    ensures |r| <= |lines|
    ensures r != [] && last.Some? ==> r[0] != last.value
    ensures forall i :: 0 <= i < |r| - 1 ==> r[i] != r[i + 1]
  {
    if lines == [] then []
    else if last == Some(lines[0]) then DedupAfter(lines[1..], last)
    else [lines[0]] + DedupAfter(lines[1..], Some(lines[0]))
  }

  /** The output holds exactly the input lines, except possibly `last`. */
  lemma {:induction false} DedupAfterMembers(lines: seq<string>, last: Option<string>)
    ensures forall x :: x in DedupAfter(lines, last) ==> x in lines
    ensures forall x :: x in lines ==> x in DedupAfter(lines, last) || last == Some(x)
  {
    if lines != [] {
      var x := lines[0];
      assert lines == [x] + lines[1..];
      if last == Some(x) {
        DedupAfterMembers(lines[1..], last);
      } else {
        DedupAfterMembers(lines[1..], Some(x));
      }
    }
  }

  /** `_ignore_identical_lines`: every line that repeats the one before it
      is dropped, so no two adjacent output lines are equal. */
  function Dedup(lines: seq<string>): (r: seq<string>)
    ensures forall i :: 0 <= i < |r| - 1 ==> r[i] != r[i + 1]
  {
    DedupAfter(lines, None)
  }

  /** Every input line still appears, and nothing else does. */
  lemma DedupMembers(lines: seq<string>)
    ensures forall x :: x in Dedup(lines) <==> x in lines
  {
    DedupAfterMembers(lines, None);
  }

  /** One step of `_ignore_identical_lines` at position `i`. */
  lemma DedupAfterStep(lines: seq<string>, i: nat, last: Option<string>)
    requires i < |lines|
    ensures DedupAfter(lines[i..], last) ==
            if last == Some(lines[i]) then DedupAfter(lines[i + 1..], last)
            else [lines[i]] + DedupAfter(lines[i + 1..], Some(lines[i]))
  {
    assert lines[i..][0] == lines[i];
    assert lines[i..][1..] == lines[i + 1..];
  }

  /** `_ignore_identical_lines` as a loop remembering the last line yielded. */
  method IgnoreIdenticalLines(lines: seq<string>) returns (out: seq<string>)
    ensures out == Dedup(lines)
  {
    out := [];
    var last: Option<string> := None;
    assert lines[0..] == lines;
    for i := 0 to |lines|
      invariant out + DedupAfter(lines[i..], last) == Dedup(lines)
    {
      var x := lines[i];
      DedupAfterStep(lines, i, last);
      if Some(x) != last {
        AppendAssoc(out, [x], DedupAfter(lines[i + 1..], Some(x)));
        out := out + [x];
        last := Some(x);
      }
    }
  }

  /** `a` can be obtained from `b` by deleting elements. */
  predicate IsSubsequence(a: seq<string>, b: seq<string>)
    decreases |b|
  {
    a == [] || (b != [] && if a[0] == b[0] then IsSubsequence(a[1..], b[1..]) else IsSubsequence(a, b[1..]))
  }

  lemma {:induction false} DedupAfterSubsequence(lines: seq<string>, last: Option<string>)
    ensures IsSubsequence(DedupAfter(lines, last), lines)
  {
    if lines != [] {
      if last == Some(lines[0]) {
        DedupAfterSubsequence(lines[1..], last);
      } else {
        DedupAfterSubsequence(lines[1..], Some(lines[0]));
      }
    }
  }

  /** The output keeps the input's order: it is a subsequence of it. */
  lemma DedupSubsequence(lines: seq<string>)
    ensures IsSubsequence(Dedup(lines), lines)
  {
    DedupAfterSubsequence(lines, None);
  }

  /** The last line seen after reading `xs` following `last`. */
  function LastSeen(xs: seq<string>, last: Option<string>): Option<string> {
    if xs == [] then last else Some(xs[|xs| - 1])
  }

  lemma {:induction false} DedupAfterSnoc(xs: seq<string>, last: Option<string>, x: string)
    ensures DedupAfter(xs + [x], last) ==
            if LastSeen(xs, last) == Some(x) then DedupAfter(xs, last) else DedupAfter(xs, last) + [x]
  {
    if xs != [] {
      var ys := xs + [x];
      assert ys[0] == xs[0];
      assert ys[1..] == xs[1..] + [x];
      if last == Some(xs[0]) {
        assert LastSeen(xs[1..], last) == LastSeen(xs, last);
        assert DedupAfter(ys, last) == DedupAfter(xs[1..] + [x], last);
        assert DedupAfter(xs, last) == DedupAfter(xs[1..], last);
        DedupAfterSnoc(xs[1..], last, x);
      } else {
        var first := Some(xs[0]);
        assert LastSeen(xs[1..], first) == LastSeen(xs, last);
        assert DedupAfter(ys, last) == [xs[0]] + DedupAfter(xs[1..] + [x], first);
        assert DedupAfter(xs, last) == [xs[0]] + DedupAfter(xs[1..], first);
        DedupAfterSnoc(xs[1..], first, x);
        AppendAssoc([xs[0]], DedupAfter(xs[1..], first), [x]);
      }
    }
  }

  /** Each run of equal adjacent lines is kept exactly once: a further line
      adds to the output exactly when it differs from the line before it. */
  lemma DedupSnoc(xs: seq<string>, x: string)
    ensures Dedup(xs + [x]) == if xs != [] && xs[|xs| - 1] == x then Dedup(xs) else Dedup(xs) + [x]
  {
    DedupAfterSnoc(xs, None, x);
  }

  lemma {:induction false} DedupAfterFixes(r: seq<string>, last: Option<string>)
    requires forall i :: 0 <= i < |r| - 1 ==> r[i] != r[i + 1]
    requires r != [] && last.Some? ==> r[0] != last.value
    ensures DedupAfter(r, last) == r
  {
    if r != [] {
      DedupAfterFixes(r[1..], Some(r[0]));
      assert [r[0]] + r[1..] == r;
    }
  }

  /** Ignoring identical lines twice is ignoring them once. */
  lemma DedupIdempotent(lines: seq<string>)
    ensures Dedup(Dedup(lines)) == Dedup(lines)
  {
    DedupAfterFixes(Dedup(lines), None);
  }

  /** The listings that stand in for a failed `lcg-ls -l` and a failed
      `lcg-get-checksum`. */
  const StateFallback := "- - - - - ?"
  const ChecksumFallback := "? -"

  lemma StateFallbackTokens()
    ensures SplitWhitespace(StateFallback) == ["-", "-", "-", "-", "-", "?"]
  {
    var words := ["-", "-", "-", "-", "-", "?"];
    assert JoinWith(words[5..], ' ') == "?";
    assert JoinWith(words[4..], ' ') == "- ?";
    assert JoinWith(words[3..], ' ') == "- - ?";
    assert JoinWith(words[2..], ' ') == "- - - ?";
    assert JoinWith(words[1..], ' ') == "- - - - ?";
    assert JoinWith(words, ' ') == StateFallback;
    SplitWhitespaceJoin(words);
  }

  lemma ChecksumFallbackTokens()
    ensures SplitWhitespace(ChecksumFallback) == ["?", "-"]
  {
    var words := ["?", "-"];
    assert JoinWith(words[1..], ' ') == "-";
    assert JoinWith(words, ' ') == ChecksumFallback;
    SplitWhitespaceJoin(words);
  }

  /** `LCGBackend._replica_state`: the sixth whitespace-separated token of
      `lcg-ls -l` on the stripped locator, `?` when the tool fails, and
      `IndexError` when the listing has fewer than six tokens. */
  function ReplicaState(b: Backend, storagepath: string): (r: Result<string, Error>)
    ensures !b.tools.lcgLs(["-l", Strip(storagepath)]).ok ==> r == Success("?")
    ensures r.Success? ==> r.value != "" && NoSpace(r.value)
    ensures r.Failure? ==> r.error == IndexError
  {
    var res := b.tools.lcgLs(["-l", Strip(storagepath)]);
    var listing := if res.ok then Concat(res.lines) else StateFallback;
    var words := SplitWhitespace(listing);
    StateFallbackTokens();
    SplitWhitespaceWords(listing);
    if |words| > 5 then
      Success(words[5])
    else Failure(IndexError)
  }

  /** `LCGBackend._replica_checksum`: the first token of `lcg-get-checksum`
      on the stripped locator, and `?` when the tool fails or prints nothing
      but whitespace. It never fails and never returns an empty string. */
  function ReplicaChecksum(b: Backend, storagepath: string): (r: string)
    ensures !b.tools.lcgGetChecksum([Strip(storagepath)]).ok ==> r == "?"
    ensures (b.tools.lcgGetChecksum([Strip(storagepath)]).ok &&
             SplitWhitespace(Concat(b.tools.lcgGetChecksum([Strip(storagepath)]).lines)) == []) ==> r == "?"
    ensures r != "" && NoSpace(r)
  {
    var res := b.tools.lcgGetChecksum([Strip(storagepath)]);
    var listing := if res.ok then Concat(res.lines) else ChecksumFallback;
    var words := SplitWhitespace(listing);
    ChecksumFallbackTokens();
    SplitWhitespaceWords(listing);
    if words == [] then "?"
    else
      words[0]
  }

  /** When `lcg-ls` succeeds and prints the words `ws` separated by runs of
      whitespace of any width, with any whitespace before the first and after
      the last (padded columns, a final newline), the state is the sixth
      word; with fewer than six words indexing raises `IndexError`. */
  lemma ReplicaStateOfWords(b: Backend, storagepath: string, ws: seq<string>, gaps: seq<string>)
    requires b.tools.lcgLs(["-l", Strip(storagepath)]).ok
    requires AreWords(ws) && AreGaps(ws, gaps)
    requires Concat(b.tools.lcgLs(["-l", Strip(storagepath)]).lines) == Interleave(ws, gaps)
    ensures ReplicaState(b, storagepath) == if |ws| >= 6 then Success(ws[5]) else Failure(IndexError)
  {
    SplitWhitespaceInterleave(ws, gaps);
  }

  /** When `lcg-get-checksum` succeeds and prints the words `ws` laid out the
      same way, the checksum is the first word, or `?` when there is none. */
  lemma ReplicaChecksumOfWords(b: Backend, storagepath: string, ws: seq<string>, gaps: seq<string>)
    requires b.tools.lcgGetChecksum([Strip(storagepath)]).ok
    requires AreWords(ws) && AreGaps(ws, gaps)
    requires Concat(b.tools.lcgGetChecksum([Strip(storagepath)]).lines) == Interleave(ws, gaps)
    ensures ReplicaChecksum(b, storagepath) == if ws != [] then ws[0] else "?"
  {
    SplitWhitespaceInterleave(ws, gaps);
  }

  /** A left-aligned column of width `width` and the space after it. */
  function Column(text: string, width: nat): (r: string)
    ensures |r| == (if |text| <= width then width else |text|) + 1
    ensures r[..|text|] == text && r[|r| - 1] == ' '
  {
    PadRight(text, width) + " "
  }

  /** The `%-32s %-4s %-7s %8.8s %s` line of a long replica listing. */
  function ReplicaLine(name: string, typeName: string, state: string, checksum: string, locator: string): (r: string)
    ensures StartsWith(r, name) && EndsWith(r, locator)
  {
    var head := Column(name, 32);
    var sum := PadLeft(Truncate(checksum, 8), 8) + " ";
    assert StartsWith(head, name);
    assert EndsWith(sum + locator, locator);
    var tail := Column(typeName, 4) + (Column(state, 7) + (sum + locator));
    EndsWithPrepend(Column(state, 7), sum + locator, locator);
    EndsWithPrepend(Column(typeName, 4), Column(state, 7) + (sum + locator), locator);
    EndsWithPrepend(head, tail, locator);
    StartsWithAppend(head, name, tail);
    head + tail
  }

  /** When name, type and state fit their columns, the line has a fixed
      layout: the name at column 0, the type at 33, the state at 38, at most
      eight characters of the checksum right-aligned to end at column 54, a
      space, and the locator from column 55 on. */
  lemma ReplicaLineColumns(name: string, typeName: string, state: string, checksum: string, locator: string)
    requires |name| <= 32 && |typeName| <= 4 && |state| <= 7
    ensures var r := ReplicaLine(name, typeName, state, checksum, locator);
            var sum := Truncate(checksum, 8);
            && |r| == 55 + |locator|
            && r[..|name|] == name
            && r[33..33 + |typeName|] == typeName
            && r[38..38 + |state|] == state
            && r[54 - |sum|..54] == sum
            && r[54] == ' '
            && r[55..] == locator
  {
    var sum := Truncate(checksum, 8);
    var r := ReplicaLine(name, typeName, state, checksum, locator);
    ReplicaLineFront(name, typeName, state, checksum, locator);
    ChecksumColumn(sum, locator);
    SliceOfSuffix(r, 46, 8 - |sum|, 8);
    SliceOfSuffix(r, 46, 9, |r| - 46);
    assert r[54] == r[46..][8];
  }

  lemma SliceOfSuffix(r: string, k: nat, i: nat, j: nat)
    requires i <= j && k + j <= |r|
    ensures r[k + i..k + j] == r[k..][i..j]
  {
  }

  /** The three left-aligned columns of a replica line, and what follows them. */
  lemma ReplicaLineFront(name: string, typeName: string, state: string, checksum: string, locator: string)
    requires |name| <= 32 && |typeName| <= 4 && |state| <= 7
    ensures var r := ReplicaLine(name, typeName, state, checksum, locator);
            && |r| == 55 + |locator|
            && r[..|name|] == name
            && r[33..33 + |typeName|] == typeName
            && r[38..38 + |state|] == state
            && r[46..] == PadLeft(Truncate(checksum, 8), 8) + " " + locator
  {
    var sum := Truncate(checksum, 8);
    var r3 := PadLeft(sum, 8) + " " + locator;
    var r2 := Column(state, 7) + r3;
    var r1 := Column(typeName, 4) + r2;
    var r := Column(name, 32) + r1;
    assert r == ReplicaLine(name, typeName, state, checksum, locator);
    ColumnThen(name, 32, r1);
    ColumnThen(typeName, 4, r2);
    ColumnThen(state, 7, r3);
    assert r[33..33 + |typeName|] == typeName by {
      assert r[33..33 + |typeName|] == r[33..][..|typeName|];
    }
    assert r[38..] == r2 by {
      assert r[38..] == r[33..][5..];
    }
    assert r[38..38 + |state|] == state by {
      assert r[38..38 + |state|] == r[38..][..|state|];
    }
    assert r[46..] == r3 by {
      assert r[46..] == r[38..][8..];
    }
  }

  /** A column followed by the rest of the line. */
  lemma ColumnThen(text: string, width: nat, rest: string)
    requires |text| <= width
    ensures var r := Column(text, width) + rest;
            |r| == width + 1 + |rest| && r[..|text|] == text && r[width + 1..] == rest
  {
    var col := Column(text, width);
    assert (col + rest)[..|text|] == col[..|text|];
  }

  /** The right-aligned checksum column, a space and the locator. */
  lemma ChecksumColumn(sum: string, locator: string)
    requires |sum| <= 8
    ensures var r := PadLeft(sum, 8) + " " + locator;
            |r| == 9 + |locator| && r[8 - |sum|..8] == sum && r[8] == ' ' && r[9..] == locator
  {
    var c := PadLeft(sum, 8);
    assert |c| == 8 && c[8 - |sum|..] == sum;
    var r := c + " " + locator;
    assert r == c + ([' '] + locator);
    assert r[..8] == c;
    assert r[8 - |sum|..8] == r[..8][8 - |sum|..];
  }

  /** `_add_replica_info`: the name and type of the first registered element
      whose host occurs in the locator (`UNKNOWN` and `?` if there is none),
      the replica's state and checksum, and the locator. It fails exactly when
      the state lookup fails. */
  function AddReplicaInfo(b: Backend, rep: string): (r: Result<string, Error>)
    ensures r.Failure? <==> ReplicaState(b, rep).Failure?
    ensures r.Success? ==> EndsWith(r.value, rep)
    ensures r.Success? && Storage.GetSEByPath(rep).Some? ==> StartsWith(r.value, Storage.GetSEByPath(rep).value.name)
    ensures r.Success? && Storage.GetSEByPath(rep).None? ==> StartsWith(r.value, "UNKNOWN")
    ensures r.Success? ==>
              var se := Storage.GetSEByPath(rep);
              r.value == ReplicaLine(if se.Some? then se.value.name else "UNKNOWN",
                                     if se.Some? then Storage.TypeName(se.value.storageType) else "?",
                                     ReplicaState(b, rep).value, ReplicaChecksum(b, rep), rep)
  {
    var se := Storage.GetSEByPath(rep);
    var name := if se.Some? then se.value.name else "UNKNOWN";
    var typeName := if se.Some? then Storage.TypeName(se.value.storageType) else "?";
    match ReplicaState(b, rep)
    case Failure(e) => Failure(e)
    case Success(state) => Success(ReplicaLine(name, typeName, state, ReplicaChecksum(b, rep), rep))
  }

  /** `f` applied to every element in order; the first failure stops it. */
  function MapResults(f: string -> Result<string, Error>, xs: seq<string>): (r: Result<seq<string>, Error>)
    ensures r.Success? <==> forall i :: 0 <= i < |xs| ==> f(xs[i]).Success?
    ensures r.Success? ==> |r.value| == |xs|
    ensures r.Success? ==> forall i :: 0 <= i < |xs| ==> f(xs[i]) == Success(r.value[i])
    ensures r.Failure? ==> exists i :: FailsFirstAt(f, xs, i, r.error)
  {
    if xs == [] then Success([])
    else
      var head := f(xs[0]);
      if head.Failure? then
        assert FailsFirstAt(f, xs, 0, head.error);
        Failure(head.error)
      else
        var rest := xs[1..];
        var tail := MapResults(f, rest);
        assert forall i :: 1 <= i < |xs| ==> xs[i] == rest[i - 1];
        if tail.Failure? then
          var i :| FailsFirstAt(f, rest, i, tail.error);
          assert FailsFirstAt(f, xs, i + 1, tail.error);
          Failure(tail.error)
        else
          var r := [head.value] + tail.value;
          assert forall i :: 1 <= i < |xs| ==> r[i] == tail.value[i - 1];
          Success(r)
  }

  /** Item `i` is the first of `xs` on which `f` fails, and it fails with `e`. */
  predicate FailsFirstAt(f: string -> Result<string, Error>, xs: seq<string>, i: int, e: Error) {
    && 0 <= i < |xs|
    && f(xs[i]) == Failure(e)
    && forall j :: 0 <= j < i ==> f(xs[j]).Success?
  }

  /** The replica-information lines of the locators `reps`, in order. */
  function ReplicaInfos(b: Backend, reps: seq<string>): (r: Result<seq<string>, Error>)
    ensures r.Success? <==> forall i :: 0 <= i < |reps| ==> AddReplicaInfo(b, reps[i]).Success?
    ensures r.Failure? ==> exists i :: 0 <= i < |reps| && AddReplicaInfo(b, reps[i]) == Failure(r.error)
                                     && forall j :: 0 <= j < i ==> AddReplicaInfo(b, reps[j]).Success?
    ensures r.Success? ==> |r.value| == |reps| && forall i :: 0 <= i < |reps| ==> AddReplicaInfo(b, reps[i]) == Success(r.value[i])
  {
    var f := rep => AddReplicaInfo(b, rep);
    assert forall i :: 0 <= i < |reps| ==> f(reps[i]) == AddReplicaInfo(b, reps[i]);
    MapResults(f, reps)
  }

  /** `replicas`: `lcg-lr` on the full logical path. In the long form each
      locator becomes its replica-information line, in order, and the first
      locator whose information fails makes the listing fail. */
  function Replicas(b: Backend, remotepath: string, long: bool, iter: bool): (r: Result<Output, Error>)
    ensures var res := b.tools.lcgLr(["lfn:" + FullPath(b, remotepath)]);
            && (!res.ok ==> r == Failure(CommandFailed(res.stderr)))
            && (res.ok && !long ==> r == Success(ToOutput(res.lines, iter)))
            && (res.ok && long ==> (r.Success? <==> forall i :: 0 <= i < |res.lines| ==> AddReplicaInfo(b, res.lines[i]).Success?))
            && (res.ok && long && r.Failure? ==>
                  exists i :: 0 <= i < |res.lines| && AddReplicaInfo(b, res.lines[i]) == Failure(r.error)
                              && forall j :: 0 <= j < i ==> AddReplicaInfo(b, res.lines[j]).Success?)
            && (r.Success? && long && iter ==>
                  r.value.Lines? && |r.value.lines| == |res.lines| &&
                  forall i :: 0 <= i < |res.lines| ==> AddReplicaInfo(b, res.lines[i]) == Success(r.value.lines[i]))
  {
    var res := b.tools.lcgLr(["lfn:" + FullPath(b, remotepath)]);
    if !res.ok then Failure(CommandFailed(res.stderr))
    else if !long then Success(ToOutput(res.lines, iter))
    else
      var infos := ReplicaInfos(b, res.lines);
      if infos.Failure? then Failure(infos.error)
      else Success(ToOutput(infos.value, iter))
  }

  /** The text form of a replica listing is the line form concatenated, and
      both fail alike. */
  lemma ReplicasTextIsJoinedLines(b: Backend, remotepath: string, long: bool)
    ensures Replicas(b, remotepath, long, true).Success? <==> Replicas(b, remotepath, long, false).Success?
    ensures Replicas(b, remotepath, long, true).Success? ==>
              Replicas(b, remotepath, long, true).value.Lines? &&
              Replicas(b, remotepath, long, false) == Success(Text(Concat(Replicas(b, remotepath, long, true).value.lines)))
    ensures Replicas(b, remotepath, long, true).Failure? ==>
              Replicas(b, remotepath, long, false) == Replicas(b, remotepath, long, true)
  {
  }

  /** `_replicate` and `_get` after the tool ran: a failing exit code raises
      unless every exit code is accepted; the output has repeated lines
      removed. */
  function CopyOutput(res: CmdResult, iter: bool, okAll: bool): (r: Result<Output, Error>)
    ensures r.Failure? <==> !res.ok && !okAll
    ensures r.Success? ==> r.value == ToOutput(Dedup(res.lines), iter)
  {
    if !res.ok && !okAll then Failure(CommandFailed(res.stderr))
    else Success(ToOutput(Dedup(res.lines), iter))
  }

  /** How `replicate` was asked to recurse: not at all, into every child,
      or into the children whose name a regular expression finds a match in. */
  datatype Recursion = NotRecursive | AllChildren | Pattern(search: string -> bool)

  predicate Accepts(recursive: Recursion, name: string) {
    !recursive.Pattern? || recursive.search(name)
  }

  /** The child paths `replicate` descends into, in listing order: each
      listed name, stripped, joined to the parent when the pattern accepts it. */
  function ChildPathsOf(remotepath: string, listing: seq<string>, recursive: Recursion): (r: seq<string>)
    ensures |r| <= |listing|
  {
    if listing == [] then []
    else
      var e := Strip(listing[|listing| - 1]);
      ChildPathsOf(remotepath, listing[..|listing| - 1], recursive)
        + (if Accepts(recursive, e) then [PosixPath.Join(remotepath, e)] else [])
  }

  /** Exactly the accepted names of the listing become child paths. */
  lemma {:induction false} ChildPathsMembers(remotepath: string, listing: seq<string>, recursive: Recursion)
    ensures forall q :: q in ChildPathsOf(remotepath, listing, recursive) ==>
              exists e :: e in listing && Accepts(recursive, Strip(e)) && q == PosixPath.Join(remotepath, Strip(e))
    ensures forall e :: e in listing && Accepts(recursive, Strip(e)) ==>
              PosixPath.Join(remotepath, Strip(e)) in ChildPathsOf(remotepath, listing, recursive)
  {
    if listing != [] {
      var init := listing[..|listing| - 1];
      var last := listing[|listing| - 1];
      assert listing == init + [last];
      ChildPathsMembers(remotepath, init, recursive);
      var r := ChildPathsOf(remotepath, listing, recursive);
      var front := ChildPathsOf(remotepath, init, recursive);
      assert r == front + (if Accepts(recursive, Strip(last)) then [PosixPath.Join(remotepath, Strip(last))] else []);
      forall q | q in r
        ensures exists e :: e in listing && Accepts(recursive, Strip(e)) && q == PosixPath.Join(remotepath, Strip(e))
      {
        if q in front {
          var e :| e in init && Accepts(recursive, Strip(e)) && q == PosixPath.Join(remotepath, Strip(e));
          assert e in listing;
        } else {
          assert last in listing;
        }
      }
    }
  }

  /** The child path of one listing line. */
  function ChildPath(remotepath: string, line: string): string {
    PosixPath.Join(remotepath, Strip(line))
  }

  /** Plain recursion descends into every listed name, in listing order. */
  lemma ChildPathsInOrder(remotepath: string, listing: seq<string>)
    ensures |ChildPathsOf(remotepath, listing, AllChildren)| == |listing|
    ensures forall j :: 0 <= j < |listing| ==> ChildPathsOf(remotepath, listing, AllChildren)[j] == ChildPath(remotepath, listing[j])
  {
    ChildPathsAllLength(remotepath, listing);
    forall j | 0 <= j < |listing| ensures ChildPathsOf(remotepath, listing, AllChildren)[j] == ChildPath(remotepath, listing[j]) {
      ChildPathsAt(remotepath, listing, j);
    }
  }

  lemma {:induction false} ChildPathsAllLength(remotepath: string, listing: seq<string>)
    ensures |ChildPathsOf(remotepath, listing, AllChildren)| == |listing|
  {
    if listing != [] {
      ChildPathsAllLength(remotepath, listing[..|listing| - 1]);
    }
  }

  /** The listing is processed line by line: the child paths of two
      listings one after the other are those of each, in that order. */
  lemma {:induction false} ChildPathsAppend(remotepath: string, l1: seq<string>, l2: seq<string>, recursive: Recursion)
    ensures ChildPathsOf(remotepath, l1 + l2, recursive)
            == ChildPathsOf(remotepath, l1, recursive) + ChildPathsOf(remotepath, l2, recursive)
    decreases |l2|
  {
    if l2 == [] {
      assert l1 + l2 == l1;
    } else {
      var init2 := l2[..|l2| - 1];
      var x := l2[|l2| - 1];
      assert l2 == init2 + [x];
      assert l1 + l2 == (l1 + init2) + [x];
      ChildPathsSnoc(remotepath, l1 + init2, x, recursive);
      ChildPathsSnoc(remotepath, init2, x, recursive);
      ChildPathsAppend(remotepath, l1, init2, recursive);
      var a := ChildPathsOf(remotepath, l1, recursive);
      var b := ChildPathsOf(remotepath, init2, recursive);
      var c := ChildPathsOf(remotepath, [x], recursive);
      AppendAssoc(a, b, c);
    }
  }

  lemma ChildPathsSnoc(remotepath: string, init: seq<string>, x: string, recursive: Recursion)
    ensures ChildPathsOf(remotepath, init + [x], recursive)
            == ChildPathsOf(remotepath, init, recursive) + ChildPathsOf(remotepath, [x], recursive)
  {
    var l := init + [x];
    assert l[..|l| - 1] == init && l[|l| - 1] == x;
    ChildPathsSingle(remotepath, x, recursive);
  }

  lemma ChildPathsSingle(remotepath: string, x: string, recursive: Recursion)
    ensures var e := Strip(x);
            ChildPathsOf(remotepath, [x], recursive) == if Accepts(recursive, e) then [PosixPath.Join(remotepath, e)] else []
  {
    assert [x][..0] == [];
  }

  lemma {:induction false} ChildPathsAt(remotepath: string, listing: seq<string>, j: nat)
    requires j < |listing|
    ensures j < |ChildPathsOf(remotepath, listing, AllChildren)|
    ensures ChildPathsOf(remotepath, listing, AllChildren)[j] == ChildPath(remotepath, listing[j])
  {
    var x := listing[j];
    assert listing == listing[..j] + ([x] + listing[j + 1..]);
    ChildPathsAppend(remotepath, listing[..j], [x] + listing[j + 1..], AllChildren);
    ChildPathsAppend(remotepath, [x], listing[j + 1..], AllChildren);
    ChildPathsAllLength(remotepath, listing[..j]);
    assert [x][..0] == [];
    assert ChildPathsOf(remotepath, [x], AllChildren) == [ChildPath(remotepath, x)];
  }

  /** A pattern keeps the order of the listing: its child paths are a
      subsequence of the ones plain recursion descends into. */
  lemma {:induction false} ChildPathsFilteredInOrder(remotepath: string, listing: seq<string>, recursive: Recursion)
    ensures IsSubsequence(ChildPathsOf(remotepath, listing, recursive), ChildPathsOf(remotepath, listing, AllChildren))
  {
    if listing != [] {
      var init := listing[..|listing| - 1];
      var x := PosixPath.Join(remotepath, Strip(listing[|listing| - 1]));
      var a := ChildPathsOf(remotepath, init, recursive);
      var b := ChildPathsOf(remotepath, init, AllChildren);
      assert ChildPathsOf(remotepath, listing, AllChildren) == b + [x];
      ChildPathsFilteredInOrder(remotepath, init, recursive);
      if Accepts(recursive, Strip(listing[|listing| - 1])) {
        assert ChildPathsOf(remotepath, listing, recursive) == a + [x];
        SubsequenceSnocBoth(a, b, x);
      } else {
        assert ChildPathsOf(remotepath, listing, recursive) == a + [];
        assert a + [] == a;
        SubsequenceSnoc(a, b, x);
      }
    }
  }

  lemma {:induction false} SubsequenceSnoc(a: seq<string>, b: seq<string>, x: string)
    requires IsSubsequence(a, b)
    ensures IsSubsequence(a, b + [x])
    decreases |b|
  {
    if a != [] {
      assert (b + [x])[0] == b[0] && (b + [x])[1..] == b[1..] + [x];
      if a[0] == b[0] {
        SubsequenceSnoc(a[1..], b[1..], x);
      } else {
        SubsequenceSnoc(a, b[1..], x);
      }
    }
  }

  lemma {:induction false} SubsequenceSnocBoth(a: seq<string>, b: seq<string>, x: string)
    requires IsSubsequence(a, b)
    ensures IsSubsequence(a + [x], b + [x])
    decreases |b|
  {
    if b == [] {
      assert a == [] && a + [x] == [x] && [x][1..] == [];
    } else {
      assert (b + [x])[0] == b[0] && (b + [x])[1..] == b[1..] + [x];
      if a == [] {
        SubsequenceSnocBoth(a, b[1..], x);
        assert a + [x] == [x] && [x][1..] == [];
      } else if a[0] == b[0] {
        SubsequenceSnocBoth(a[1..], b[1..], x);
        assert (a + [x])[0] == a[0] && (a + [x])[1..] == a[1..] + [x];
      } else {
        SubsequenceSnocBoth(a, b[1..], x);
        assert (a + [x])[0] == a[0];
      }
    }
  }

  /** One more line of the listing adds its child path when accepted. */
  lemma ChildPathsOfStep(remotepath: string, listing: seq<string>, i: nat, recursive: Recursion)
    requires i < |listing|
    ensures var e := Strip(listing[i]);
            ChildPathsOf(remotepath, listing[..i + 1], recursive)
            == ChildPathsOf(remotepath, listing[..i], recursive)
               + (if Accepts(recursive, e) then [PosixPath.Join(remotepath, e)] else [])
  {
    var prefix := listing[..i + 1];
    assert prefix[..|prefix| - 1] == listing[..i] && prefix[|prefix| - 1] == listing[i];
  }

  /** The loop in `replicate` that collects the child paths. */
  method ChildPaths(remotepath: string, listing: seq<string>, recursive: Recursion) returns (newpaths: seq<string>)
    ensures newpaths == ChildPathsOf(remotepath, listing, recursive)
  {
    newpaths := [];
    for i := 0 to |listing|
      invariant newpaths == ChildPathsOf(remotepath, listing[..i], recursive)
    {
      ChildPathsOfStep(remotepath, listing, i, recursive);
      var element := Strip(listing[i]);
      var added := if Accepts(recursive, element) then [PosixPath.Join(remotepath, element)] else [];
      newpaths := newpaths + added;
    }
    assert listing[..|listing|] == listing;
  }

  /** The line outputs `outputs` joined in order; the first failure stops it. */
  function ChainLines(outputs: seq<Result<Output, Error>>): (r: Result<seq<string>, Error>)
    requires forall i :: 0 <= i < |outputs| && outputs[i].Success? ==> outputs[i].value.Lines?
    ensures r.Success? <==> forall i :: 0 <= i < |outputs| ==> outputs[i].Success?
  {
    if outputs == [] then Success([])
    else if outputs[0].Failure? then Failure(outputs[0].error)
    else
      var rest := outputs[1..];
      var tail := ChainLines(rest);
      assert forall i :: 1 <= i < |outputs| ==> outputs[i] == rest[i - 1];
      if tail.Failure? then Failure(tail.error) else Success(outputs[0].value.lines + tail.value)
  }

  /** Chaining fails with the error of the first failing output. */
  lemma {:induction false} ChainLinesFailsAt(outputs: seq<Result<Output, Error>>, i: nat)
    requires forall k :: 0 <= k < |outputs| && outputs[k].Success? ==> outputs[k].value.Lines?
    requires i < |outputs| && outputs[i].Failure?
    requires forall j :: 0 <= j < i ==> outputs[j].Success?
    ensures ChainLines(outputs) == Failure(outputs[i].error)
  {
    if i > 0 {
      var rest := outputs[1..];
      assert forall j :: 0 <= j < i - 1 ==> rest[j] == outputs[j + 1];
      ChainLinesFailsAt(rest, i - 1);
    }
  }

  /** Chaining two runs of outputs chains their lines in turn: the lines of
      the first run come before those of the second. */
  lemma {:induction false} ChainLinesAppend(a: seq<Result<Output, Error>>, c: seq<Result<Output, Error>>)
    requires forall i :: 0 <= i < |a| && a[i].Success? ==> a[i].value.Lines?
    requires forall i :: 0 <= i < |c| && c[i].Success? ==> c[i].value.Lines?
    ensures forall i :: 0 <= i < |a + c| && (a + c)[i].Success? ==> (a + c)[i].value.Lines?
    ensures ChainLines(a + c).Success? <==> ChainLines(a).Success? && ChainLines(c).Success?
    ensures ChainLines(a + c).Success? ==> ChainLines(a + c).value == ChainLines(a).value + ChainLines(c).value
  {
    if a == [] {
      assert a + c == c;
    } else {
      var rest := a[1..];
      assert (a + c)[1..] == rest + c;
      assert forall i :: 0 <= i < |rest| ==> rest[i] == a[i + 1];
      ChainLinesAppend(rest, c);
      if a[0].Success? && ChainLines(a + c).Success? {
        AppendAssoc(a[0].value.lines, ChainLines(rest).value, ChainLines(c).value);
      }
    }
  }

  /** A single output chains to its own lines. */
  lemma ChainLinesSingle(o: Result<Output, Error>)
    requires o.Success? ==> o.value.Lines?
    ensures ChainLines([o]) == if o.Success? then Success(o.value.lines) else Failure(o.error)
  {
    assert [o][1..] == [];
    assert ChainLines([o][1..]) == Success([]);
    if o.Success? {
      assert o.value.lines + [] == o.value.lines;
    }
  }

  /** Where `source` comes from in `replicate`: the catalogue's closest
      element to the destination, or the named one, which must then hold a
      replica. */
  function ReplicationSource(cat: Catalog, dst: Storage.StorageElement, remotepath: string,
                             source: Option<string>, tape: bool): (r: Result<Storage.StorageElement, Error>)
    ensures source.None? ==> (r.Success? <==> cat.closestTo(dst, remotepath, tape).Some?)
    ensures source.None? && r.Success? ==> r.value == cat.closestTo(dst, remotepath, tape).value
    ensures source.Some? ==> (r.Success? <==> cat.getSE(source.value).Some? && cat.hasReplica(cat.getSE(source.value).value, remotepath))
    ensures source.Some? && r.Success? ==> Some(r.value) == cat.getSE(source.value)
    ensures r.Failure? ==> r.error.CommandFailed?
  {
    match source
    case None =>
      (match cat.closestTo(dst, remotepath, tape)
       case None => Failure(CommandFailed("Could not find valid storage element with replica of " + remotepath + ".\n"))
       case Some(src) => Success(src))
    case Some(name) =>
      match cat.getSE(name)
      case None => Failure(CommandFailed("Could not find storage element " + name + ".\n"))
      case Some(src) =>
        if !cat.hasReplica(src, remotepath) then
          Failure(CommandFailed(remotepath + "\nNo replica present at source storage element " + src.name + "\n"))
        else Success(src)
  }

  function AlreadyPresent(remotepath: string, name: string): string {
    remotepath + "\nReplica already present at destination storage element " + name + ".\n"
  }

  /** `replicate` on a single file: nothing to do if the destination holds
      it already; otherwise `lcg-rep` copies the source replica to the
      destination's storage path as `get_storage_path` computes it. A
      destination the catalogue does not know fails with `AttributeError`.
      `okAll` says whether the caller passed `_ok_code`, taken to accept
      every exit code. */
  function ReplicateFile(b: Backend, cat: Catalog, remotepath: string, destination: string,
                         source: Option<string>, tape: bool, iter: bool, okAll: bool): (r: Result<Output, Error>)
    ensures iter && r.Success? ==> r.value.Lines?
    ensures cat.getSE(destination).None? ==> r == Failure(AttributeError)
  {
    match cat.getSE(destination)
    case None => Failure(AttributeError)
    case Some(dst) =>
      if cat.hasReplica(dst, remotepath) then FromText(AlreadyPresent(remotepath, dst.name), iter)
      else
        match ReplicationSource(cat, dst, remotepath, source, tape)
        case Failure(e) => Failure(e)
        case Success(src) =>
          var args := ["-v", "--checksum", "-d", Storage.GetStoragePathAsWritten(dst, remotepath), cat.getReplica(src, remotepath)];
          CopyOutput(b.tools.lcgRep(args), iter, okAll)
  }

  /** `replicate`. A pattern turns recursion on and filters the children of
      the top directory only. Each selected child is replicated with plain
      recursion, as lines, with an `_ok_code` that accepts every exit code,
      and the outputs are chained. That call also hands on the caller's
      keyword arguments; when these hold `_ok_code` already (`okAll`), the
      call names `_ok_code` twice and raises `TypeError`. So a child of the
      top directory that is itself a directory with children fails. */
  function Replicate(b: Backend, cat: Catalog, remotepath: string, destination: string, source: Option<string>,
                     tape: bool, recursive: Recursion, iter: bool, okAll: bool): (r: Result<Output, Error>)
    ensures iter && r.Success? ==> r.value.Lines?
    decreases if okAll then 0 else 2, 1, 0
  {
    var dirCheck := if recursive.NotRecursive? then Success(false) else IsDir(b, FullPath(b, remotepath));
    if dirCheck.Failure? then Failure(dirCheck.error)
    else if !dirCheck.value then ReplicateFile(b, cat, remotepath, destination, source, tape, iter, okAll)
    else
      var res := RunLs(b, FullPath(b, remotepath), false, false);
      if !res.ok then Failure(CommandFailed(res.stderr))
      else ReplicateChildren(b, cat, ChildPathsOf(remotepath, res.lines, recursive), destination, source, tape, iter, okAll)
  }

  /** The directory case of `replicate` once the child paths are known: no
      child gives empty output; otherwise the child calls, unless `_ok_code`
      is named twice. */
  function ReplicateChildren(b: Backend, cat: Catalog, paths: seq<string>, destination: string, source: Option<string>,
                             tape: bool, iter: bool, okAll: bool): (r: Result<Output, Error>)
    ensures iter && r.Success? ==> r.value.Lines?
    ensures paths == [] ==> r == Success(ToOutput([], iter))
    ensures paths != [] && okAll ==> r == Failure(TypeError("_ok_code"))
    decreases if okAll then 0 else 2, 0, 0
  {
    if paths == [] then Success(ToOutput([], iter))
    else if okAll then Failure(TypeError("_ok_code"))
    else
      var outputs := ReplicateAll(b, cat, paths, destination, source, tape);
      if outputs.Failure? then Failure(outputs.error) else Success(ToOutput(outputs.value, iter))
  }

  /** One child call of a recursive `replicate`. */
  function ReplicateChild(b: Backend, cat: Catalog, path: string, destination: string, source: Option<string>,
                          tape: bool): (r: Result<Output, Error>)
    ensures r.Success? ==> r.value.Lines?
    decreases 1, 0, 0
  {
    Replicate(b, cat, path, destination, source, tape, AllChildren, true, true)
  }

  /** The chained outputs of the child calls on `paths`, in order. */
  function ReplicateAll(b: Backend, cat: Catalog, paths: seq<string>, destination: string, source: Option<string>,
                        tape: bool): (r: Result<seq<string>, Error>)
    ensures r.Success? <==> forall i :: 0 <= i < |paths| ==> ReplicateChild(b, cat, paths[i], destination, source, tape).Success?
    decreases 1, 1, 0
  {
    var outputs := seq(|paths|, i requires 0 <= i < |paths| => ReplicateChild(b, cat, paths[i], destination, source, tape));
    assert forall i :: 0 <= i < |paths| ==> outputs[i] == ReplicateChild(b, cat, paths[i], destination, source, tape);
    ChainLines(outputs)
  }

  /** A `replicate` that does not descend into a directory: either it was not
      asked to, or the path is not a directory. */
  predicate ReplicatesFile(b: Backend, remotepath: string, recursive: Recursion) {
    recursive.NotRecursive? || IsDir(b, FullPath(b, remotepath)) == Success(false)
  }

  /** When the destination already holds the file, `replicate` reports so
      and never runs `lcg-rep`: its result does not depend on that tool. */
  lemma ReplicateAlreadyPresent(b: Backend, cat: Catalog, remotepath: string, destination: string,
                                source: Option<string>, tape: bool, recursive: Recursion, iter: bool,
                                okAll: bool, dst: Storage.StorageElement, rep: seq<string> -> CmdResult)
    requires ReplicatesFile(b, remotepath, recursive)
    requires cat.getSE(destination) == Some(dst) && cat.hasReplica(dst, remotepath)
    ensures Replicate(b, cat, remotepath, destination, source, tape, recursive, iter, okAll)
            == FromText(AlreadyPresent(remotepath, dst.name), iter)
    ensures Replicate(b, cat, remotepath, destination, source, tape, recursive, iter, okAll).Success?
    ensures Replicate(b.(tools := b.tools.(lcgRep := rep)), cat, remotepath, destination, source, tape, recursive, iter, okAll)
            == Replicate(b, cat, remotepath, destination, source, tape, recursive, iter, okAll)
  {
    var b' := b.(tools := b.tools.(lcgRep := rep));
    assert IsDir(b', FullPath(b', remotepath)) == IsDir(b, FullPath(b, remotepath));
  }

  /** The three ways source selection makes `replicate` fail on a file the
      destination does not hold yet. */
  lemma ReplicateSourceErrors(b: Backend, cat: Catalog, remotepath: string, destination: string,
                              source: Option<string>, tape: bool, recursive: Recursion, iter: bool,
                              okAll: bool, dst: Storage.StorageElement)
    requires ReplicatesFile(b, remotepath, recursive)
    requires cat.getSE(destination) == Some(dst) && !cat.hasReplica(dst, remotepath)
    ensures source.None? && cat.closestTo(dst, remotepath, tape).None? ==>
              Replicate(b, cat, remotepath, destination, source, tape, recursive, iter, okAll)
              == Failure(CommandFailed("Could not find valid storage element with replica of " + remotepath + ".\n"))
    ensures source.Some? && cat.getSE(source.value).None? ==>
              Replicate(b, cat, remotepath, destination, source, tape, recursive, iter, okAll)
              == Failure(CommandFailed("Could not find storage element " + source.value + ".\n"))
    ensures source.Some? && cat.getSE(source.value).Some? && !cat.hasReplica(cat.getSE(source.value).value, remotepath) ==>
              Replicate(b, cat, remotepath, destination, source, tape, recursive, iter, okAll)
              == Failure(CommandFailed(remotepath + "\nNo replica present at source storage element "
                                       + cat.getSE(source.value).value.name + "\n"))
  {
  }

  /** Otherwise `lcg-rep` copies the chosen source replica to the path
      `get_storage_path` gives, which for an absolute logical path is that
      logical path itself, without the destination's base path. */
  lemma ReplicateCopies(b: Backend, cat: Catalog, remotepath: string, destination: string,
                        source: Option<string>, tape: bool, recursive: Recursion, iter: bool,
                        okAll: bool, dst: Storage.StorageElement, src: Storage.StorageElement)
    requires ReplicatesFile(b, remotepath, recursive)
    requires cat.getSE(destination) == Some(dst) && !cat.hasReplica(dst, remotepath)
    requires ReplicationSource(cat, dst, remotepath, source, tape) == Success(src)
    ensures var target := Storage.GetStoragePathAsWritten(dst, remotepath);
            && (PosixPath.IsAbs(remotepath) ==> target == remotepath)
            && Replicate(b, cat, remotepath, destination, source, tape, recursive, iter, okAll)
               == CopyOutput(b.tools.lcgRep(["-v", "--checksum", "-d", target, cat.getReplica(src, remotepath)]), iter, okAll)
  {
  }

  /** The children a directory call works on: the listing's child paths. */
  function ListedChildren(b: Backend, remotepath: string, recursive: Recursion): seq<string> {
    ChildPathsOf(remotepath, RunLs(b, FullPath(b, remotepath), false, false).lines, recursive)
  }

  /** A directory whose selected children are listed: a recursive
      `replicate` chains the outputs of the child calls, in listing order,
      or fails with the first child's error; a caller that passed
      `_ok_code` itself gets `TypeError` instead. */
  lemma ReplicateDirectory(b: Backend, cat: Catalog, remotepath: string, destination: string,
                           source: Option<string>, tape: bool, recursive: Recursion, iter: bool, okAll: bool)
    requires !recursive.NotRecursive? && IsDir(b, FullPath(b, remotepath)) == Success(true)
    requires RunLs(b, FullPath(b, remotepath), false, false).ok
    requires ListedChildren(b, remotepath, recursive) != []
    ensures okAll ==> Replicate(b, cat, remotepath, destination, source, tape, recursive, iter, okAll) == Failure(TypeError("_ok_code"))
    ensures !okAll ==>
              var all := ReplicateAll(b, cat, ListedChildren(b, remotepath, recursive), destination, source, tape);
              Replicate(b, cat, remotepath, destination, source, tape, recursive, iter, okAll)
              == if all.Failure? then Failure(all.error) else Success(ToOutput(all.value, iter))
  {
  }

  /** As written, a child directory with children of its own names
      `_ok_code` twice in its own child call: once every child listed before
      it has gone through, the whole recursive `replicate` fails with
      `TypeError`. Recursion goes one level deep. */
  lemma ReplicateNestedDirectoryRaises(b: Backend, cat: Catalog, remotepath: string, destination: string,
                                       source: Option<string>, tape: bool, recursive: Recursion, iter: bool, i: nat)
    requires !recursive.NotRecursive? && IsDir(b, FullPath(b, remotepath)) == Success(true)
    requires RunLs(b, FullPath(b, remotepath), false, false).ok
    requires i < |ListedChildren(b, remotepath, recursive)|
    requires var paths := ListedChildren(b, remotepath, recursive);
             forall j :: 0 <= j < i ==> ReplicateChild(b, cat, paths[j], destination, source, tape).Success?
    requires var child := ListedChildren(b, remotepath, recursive)[i];
             && IsDir(b, FullPath(b, child)) == Success(true)
             && RunLs(b, FullPath(b, child), false, false).ok
             && RunLs(b, FullPath(b, child), false, false).lines != []
    ensures Replicate(b, cat, remotepath, destination, source, tape, recursive, iter, false) == Failure(TypeError("_ok_code"))
  {
    var paths := ListedChildren(b, remotepath, recursive);
    var child := paths[i];
    ChildPathsInOrder(child, RunLs(b, FullPath(b, child), false, false).lines);
    ReplicateDirectory(b, cat, child, destination, source, tape, AllChildren, true, true);
    ReplicateAllFailsAt(b, cat, paths, destination, source, tape, i);
  }

  /** The child calls fail with the error of the first failing one. */
  lemma ReplicateAllFailsAt(b: Backend, cat: Catalog, paths: seq<string>, destination: string,
                            source: Option<string>, tape: bool, i: nat)
    requires i < |paths| && ReplicateChild(b, cat, paths[i], destination, source, tape).Failure?
    requires forall j :: 0 <= j < i ==> ReplicateChild(b, cat, paths[j], destination, source, tape).Success?
    ensures ReplicateAll(b, cat, paths, destination, source, tape)
            == Failure(ReplicateChild(b, cat, paths[i], destination, source, tape).error)
  {
    var outputs := seq(|paths|, k requires 0 <= k < |paths| => ReplicateChild(b, cat, paths[k], destination, source, tape));
    ChainLinesFailsAt(outputs, i);
  }

  lemma {:induction false} ChildPathsAcceptAll(remotepath: string, listing: seq<string>)
    ensures ChildPathsOf(remotepath, listing, Pattern(_ => true)) == ChildPathsOf(remotepath, listing, AllChildren)
  {
    if listing != [] {
      ChildPathsAcceptAll(remotepath, listing[..|listing| - 1]);
    }
  }

  /** A pattern that every name matches replicates the same as plain recursion. */
  lemma ReplicatePatternAcceptingAll(b: Backend, cat: Catalog, remotepath: string, destination: string,
                                     source: Option<string>, tape: bool, iter: bool, okAll: bool)
    ensures Replicate(b, cat, remotepath, destination, source, tape, Pattern(_ => true), iter, okAll)
            == Replicate(b, cat, remotepath, destination, source, tape, AllChildren, iter, okAll)
  {
    ChildPathsAcceptAll(remotepath, RunLs(b, FullPath(b, remotepath), false, false).lines);
    ReplicateSameChildren(b, cat, remotepath, destination, source, tape, Pattern(_ => true), AllChildren, iter, okAll);
  }

  /** Two kinds of recursion that pick the same children of the directory
      replicate the same. */
  lemma ReplicateSameChildren(b: Backend, cat: Catalog, remotepath: string, destination: string,
                              source: Option<string>, tape: bool, r1: Recursion, r2: Recursion,
                              iter: bool, okAll: bool)
    requires !r1.NotRecursive? && !r2.NotRecursive?
    requires ListedChildren(b, remotepath, r1) == ListedChildren(b, remotepath, r2)
    ensures Replicate(b, cat, remotepath, destination, source, tape, r1, iter, okAll)
            == Replicate(b, cat, remotepath, destination, source, tape, r2, iter, okAll)
  {
  }

  lemma {:induction false} ChildPathsRejectAll(remotepath: string, listing: seq<string>)
    ensures ChildPathsOf(remotepath, listing, Pattern(_ => false)) == []
  {
    if listing != [] {
      ChildPathsRejectAll(remotepath, listing[..|listing| - 1]);
    }
  }

  /** A pattern that no name matches replicates nothing in a directory: the
      result is empty whatever the catalogue and `lcg-rep` would answer. */
  lemma ReplicatePatternRejectingAll(b: Backend, cat: Catalog, remotepath: string, destination: string,
                                     source: Option<string>, tape: bool, iter: bool, okAll: bool)
    requires IsDir(b, FullPath(b, remotepath)) == Success(true)
    requires RunLs(b, FullPath(b, remotepath), false, false).ok
    ensures Replicate(b, cat, remotepath, destination, source, tape, Pattern(_ => false), iter, okAll)
            == Success(ToOutput([], iter))
  {
    ChildPathsRejectAll(remotepath, RunLs(b, FullPath(b, remotepath), false, false).lines);
  }

  /** The local target of `get`: inside a local directory the file keeps the
      base name of its logical path. */
  function LocalTarget(localpath: string, remotepath: string, localIsDir: bool): (r: string)
    ensures !localIsDir ==> r == localpath
    ensures localIsDir ==> StartsWith(r, localpath) && EndsWith(r, PosixPath.Basename(remotepath))
  {
    var base := PosixPath.Basename(remotepath);
    assert !PosixPath.IsAbs(base) by {
      if base != [] {
        assert base[0] != '/';
      }
    }
    if localIsDir then PosixPath.Join(localpath, base) else localpath
  }

  /** Where `get` downloads from: the catalogue's closest element, or the
      named element, which is not checked for a replica. */
  function DownloadSource(cat: Catalog, remotepath: string, source: Option<string>, tape: bool)
    : (r: Result<Storage.StorageElement, Error>)
    ensures source.None? ==> (r.Success? <==> cat.closest(remotepath, tape).Some?)
    ensures source.None? && r.Success? ==> Some(r.value) == cat.closest(remotepath, tape)
    ensures source.Some? ==> (r.Success? <==> cat.getSE(source.value).Some?)
    ensures source.Some? && r.Success? ==> Some(r.value) == cat.getSE(source.value)
  {
    match source
    case None =>
      (match cat.closest(remotepath, tape)
       case None => Failure(CommandFailed("Could not find valid storage element with replica of " + remotepath + ".\n"))
       case Some(se) => Success(se))
    case Some(name) =>
      match cat.getSE(name)
      case None => Failure(CommandFailed("Could not find storage element " + name + ".\n"))
      case Some(se) => Success(se)
  }

  /** `get`: `lcg-cp` from the source replica to the local target.
      `localIsDir` is whether the local path is a directory; `okAll` whether
      the caller passed `_ok_code`, which `get` hands on to `lcg-cp`. */
  function Get(b: Backend, cat: Catalog, remotepath: string, localpath: string, source: Option<string>,
               tape: bool, localIsDir: bool, iter: bool, okAll: bool): (r: Result<Output, Error>)
    ensures DownloadSource(cat, remotepath, source, tape).Failure? ==> r == Failure(DownloadSource(cat, remotepath, source, tape).error)
  {
    match DownloadSource(cat, remotepath, source, tape)
    case Failure(e) => Failure(e)
    case Success(se) =>
      var args := ["-v", "--checksum", cat.getReplica(se, remotepath), LocalTarget(localpath, remotepath, localIsDir)];
      CopyOutput(b.tools.lcgCp(args), iter, okAll)
  }

  /** Once a source is found, `get` is one `lcg-cp` from that source's
      replica to the local target, and its result is that command's. */
  lemma GetCopies(b: Backend, cat: Catalog, remotepath: string, localpath: string, source: Option<string>,
                  tape: bool, localIsDir: bool, iter: bool, okAll: bool, se: Storage.StorageElement)
    requires DownloadSource(cat, remotepath, source, tape) == Success(se)
    ensures var res := b.tools.lcgCp(["-v", "--checksum", cat.getReplica(se, remotepath), LocalTarget(localpath, remotepath, localIsDir)]);
            && Get(b, cat, remotepath, localpath, source, tape, localIsDir, iter, okAll) == CopyOutput(res, iter, okAll)
            && (res.ok || okAll <==> Get(b, cat, remotepath, localpath, source, tape, localIsDir, iter, okAll).Success?)
  {
  }

  /** `get` never asks whether the source holds a replica: its result is the
      same whatever the catalogue answers to that question. */
  lemma GetIgnoresHasReplica(b: Backend, cat: Catalog, remotepath: string, localpath: string, source: Option<string>,
                             tape: bool, localIsDir: bool, iter: bool, okAll: bool, has: (Storage.StorageElement, string) -> bool)
    ensures Get(b, cat.(hasReplica := has), remotepath, localpath, source, tape, localIsDir, iter, okAll)
            == Get(b, cat, remotepath, localpath, source, tape, localIsDir, iter, okAll)
  {
  }

  /** `replicate` would refuse an explicit source without a replica where
      `get` goes ahead and copies from it. */
  lemma GetAcceptsSourceWithoutReplica(b: Backend, cat: Catalog, remotepath: string, localpath: string, name: string,
                                       tape: bool, localIsDir: bool, iter: bool, okAll: bool, se: Storage.StorageElement,
                                       dst: Storage.StorageElement)
    requires cat.getSE(name) == Some(se) && !cat.hasReplica(se, remotepath)
    ensures Get(b, cat, remotepath, localpath, Some(name), tape, localIsDir, iter, okAll)
            == CopyOutput(b.tools.lcgCp(["-v", "--checksum", cat.getReplica(se, remotepath), LocalTarget(localpath, remotepath, localIsDir)]), iter, okAll)
    ensures ReplicationSource(cat, dst, remotepath, Some(name), tape).Failure?
  {
    GetCopies(b, cat, remotepath, localpath, Some(name), tape, localIsDir, iter, okAll, se);
  }

  /** The configuration `get_backend` reads. */
  datatype Config = Config(backend: string, basedir: string)

  /** `get_backend`: an LCG backend for `lcg`, a configuration error for any
      other backend name. */
  function GetBackend(config: Config, tools: Tools): (r: Result<Backend, Error>)
    ensures r.Success? <==> config.backend == "lcg"
    ensures r.Success? ==> r.value.basedir == "/grid" + config.basedir && r.value.tools == tools
    ensures r.Failure? ==> r.error == ConfigError("backend", "Unknown backend!")
  {
    if config.backend == "lcg" then Success(NewLCGBackend(Some(config.basedir), tools))
    else Failure(ConfigError("backend", "Unknown backend!"))
  }

  /** The keyword arguments a recursive `replicate` hands to each child, as
      written: it pops `_iter` from its own keyword arguments and passes
      `_iter` and `_ok_code` explicitly beside the rest. Python refuses a call
      that names a keyword twice. */
  function ChildKeywordsAsWritten(kwargs: set<string>): (r: Result<set<string>, Error>)
    ensures r.Failure? <==> "_ok_code" in kwargs
    ensures r.Success? ==> r.value == (kwargs - {"_iter"}) + {"_iter", "_ok_code"}
  {
    var rest := kwargs - {"_iter"};
    if "_ok_code" in rest then Failure(TypeError("_ok_code")) else Success(rest + {"_iter", "_ok_code"})
  }

  /** The children of the top directory receive `_ok_code`, so a child that
      is itself a directory fails with `TypeError` as soon as it calls its own
      children: recursion stops one level down. */
  lemma NestedRecursionRaises(kwargs: set<string>)
    requires "_ok_code" !in kwargs
    ensures ChildKeywordsAsWritten(kwargs).Success?
    ensures ChildKeywordsAsWritten(ChildKeywordsAsWritten(kwargs).value) == Failure(TypeError("_ok_code"))
  {
  }

  /** The keyword arguments a child receives when `replicate` pops `_ok_code`
      as well as `_iter` before adding both. */
  function ChildKeywords(kwargs: set<string>): (r: set<string>)
    ensures "_iter" in r && "_ok_code" in r
    ensures forall k :: k in kwargs ==> k in r
    ensures forall k :: k in r ==> k in kwargs || k == "_iter" || k == "_ok_code"
  {
    (kwargs - {"_iter", "_ok_code"}) + {"_iter", "_ok_code"}
  }

  /** The corrected keywords never name a keyword twice and are the same at
      every depth below the top, so recursion would reach any depth. */
  lemma ChildKeywordsStable(kwargs: set<string>)
    ensures ChildKeywords(ChildKeywords(kwargs)) == ChildKeywords(kwargs)
  {
  }
}
