/** The Python `str` operations the data manager relies on, written out over
    `seq<char>`: prefix and substring tests, `count`, `split(sep)`,
    `sep.join`, `strip`, whitespace `split()` and `%`-style padding. */
module Strings {

  /** `c.isspace()` for the ASCII whitespace characters. */
  predicate IsSpace(c: char) {
    c == ' ' || c == '\t' || c == '\n' || c == '\r' || c == '\U{0B}' || c == '\U{0C}'
  }

  predicate NoSpace(s: string) {
    forall i :: 0 <= i < |s| ==> !IsSpace(s[i])
  }

  predicate NoChar(s: string, c: char) {
    forall i :: 0 <= i < |s| ==> s[i] != c
  }

  /** `s.startswith(p)` */
  predicate StartsWith(s: string, p: string) {
    |p| <= |s| && s[..|p|] == p
  }

  /** `s.endswith(p)` */
  predicate EndsWith(s: string, p: string) {
    |p| <= |s| && s[|s| - |p|..] == p
  }

  /** `sub` occurs in `s` starting at offset `i`. */
  predicate OccursAt(s: string, sub: string, i: int) {
    0 <= i && i + |sub| <= |s| && s[i..i + |sub|] == sub
  }

  /** `sub in s`, scanning `s` from the left. */
  predicate Contains(s: string, sub: string)
    decreases |s|
  {
    StartsWith(s, sub) || (|s| > 0 && Contains(s[1..], sub))
  }

  /** An occurrence at any offset is found by the scan. */
  lemma {:induction false} ContainsFromOccurs(s: string, sub: string, i: int)
    requires OccursAt(s, sub, i)
    ensures Contains(s, sub)
    decreases i
  {
    if i > 0 {
      assert s[1..][i - 1..i - 1 + |sub|] == s[i..i + |sub|];
      ContainsFromOccurs(s[1..], sub, i - 1);
    }
  }

  /** The scan agrees with the offset definition of a substring. */
  lemma {:induction false} ContainsIffOccurs(s: string, sub: string)
    ensures Contains(s, sub) <==> exists i :: OccursAt(s, sub, i)
    decreases |s|
  {
    if Contains(s, sub) {
      if StartsWith(s, sub) {
        assert OccursAt(s, sub, 0);
      } else {
        ContainsIffOccurs(s[1..], sub);
        var i :| OccursAt(s[1..], sub, i);
        OccursShift(s, sub, i);
      }
    }
    forall i | OccursAt(s, sub, i) ensures Contains(s, sub) {
      ContainsFromOccurs(s, sub, i);
    }
  }

  /** An occurrence in the tail is an occurrence one further on. */
  lemma OccursShift(s: string, sub: string, i: int)
    requires |s| > 0 && OccursAt(s[1..], sub, i)
    ensures OccursAt(s, sub, i + 1)
  {
    assert s[1..][i..i + |sub|] == s[i + 1..i + 1 + |sub|];
  }

  /** `s.count(c)` for a one-character `c`. */
  function Count(s: string, c: char): (n: nat)
    ensures n <= |s|
  {
    if s == [] then 0 else (if s[0] == c then 1 else 0) + Count(s[1..], c)
  }

  lemma {:induction false} CountAppend(a: string, b: string, c: char)
    ensures Count(a + b, c) == Count(a, c) + Count(b, c)
  {
    if a == [] {
      assert a + b == b;
    } else {
      assert (a + b)[1..] == a[1..] + b;
      CountAppend(a[1..], b, c);
    }
  }

  /** A prefix never holds more occurrences than the whole string. */
  lemma CountPrefix(s: string, k: nat, c: char)
    requires k <= |s|
    ensures Count(s[..k], c) <= Count(s, c)
  {
    assert s == s[..k] + s[k..];
    CountAppend(s[..k], s[k..], c);
  }

  /** `''.join(lines)`: the lines concatenated, built from the right the way
      a `text += line` loop builds it. */
  function Concat(lines: seq<string>): string
  {
    if lines == [] then "" else Concat(lines[..|lines| - 1]) + lines[|lines| - 1]
  }

  lemma {:induction false} ConcatAppend(a: seq<string>, b: seq<string>)
    ensures Concat(a + b) == Concat(a) + Concat(b)
    decreases |b|
  {
    if b == [] {
      assert a + b == a;
    } else {
      var init, x := b[..|b| - 1], b[|b| - 1];
      assert (a + b)[..|a + b| - 1] == a + init && (a + b)[|a + b| - 1] == x;
      assert Concat(a + b) == Concat(a + init) + x;
      assert Concat(b) == Concat(init) + x;
      ConcatAppend(a, init);
      AppendAssoc(Concat(a), Concat(init), x);
    }
  }

  lemma AppendAssoc<T>(x: seq<T>, y: seq<T>, z: seq<T>)
    ensures (x + y) + z == x + (y + z)
  {
  }

  lemma ConcatCons(x: string, rest: seq<string>)
    ensures Concat([x] + rest) == x + Concat(rest)
  {
    ConcatAppend([x], rest);
    assert [x][..0] == [];
  }

  /** `s.split(c)`: the pieces between the separators, always one more
      piece than there are separators, none of them holding `c`. */
  function Split(s: string, c: char): (r: seq<string>)
    ensures |r| == Count(s, c) + 1
    ensures forall i :: 0 <= i < |r| ==> NoChar(r[i], c)
  {
    if s == [] then [""]
    else
      var rest := Split(s[1..], c);
      if s[0] == c then [""] + rest else [[s[0]] + rest[0]] + rest[1..]
  }

  /** `c.join(parts)` */
  function JoinWith(parts: seq<string>, c: char): string
  {
    if parts == [] then ""
    else if |parts| == 1 then parts[0]
    else parts[0] + [c] + JoinWith(parts[1..], c)
  }

  /** Joining the pieces with the separator gives the original string back. */
  lemma {:induction false} JoinSplit(s: string, c: char)
    ensures JoinWith(Split(s, c), c) == s
  {
    if s != [] {
      var rest := Split(s[1..], c);
      JoinSplit(s[1..], c);
      if s[0] == c {
        assert Split(s, c) == [""] + rest;
        assert ([""] + rest)[1..] == rest;
      } else {
        var parts := [[s[0]] + rest[0]] + rest[1..];
        assert Split(s, c) == parts;
        if |rest| == 1 {
          assert JoinWith(rest, c) == rest[0];
        } else {
          assert parts[1..] == rest[1..];
          assert JoinWith(rest, c) == rest[0] + [c] + JoinWith(rest[1..], c);
        }
      }
    }
  }

  /** A piece free of the separator followed by the separator splits off as
      exactly one piece. */
  lemma {:induction false} SplitPiece(p: string, t: string, c: char)
    requires NoChar(p, c)
    ensures Split(p + [c] + t, c) == [p] + Split(t, c)
    ensures Split(p, c) == [p]
    decreases |p|
  {
    if p == [] {
      assert p + [c] + t == [c] + t;
      assert ([c] + t)[1..] == t;
    } else {
      SplitPiece(p[1..], t, c);
      assert (p + [c] + t)[1..] == p[1..] + [c] + t;
      assert [p[0]] + p[1..] == p;
    }
  }

  /** Splitting the join of separator-free pieces gives the pieces back. */
  lemma {:induction false} SplitJoin(parts: seq<string>, c: char)
    requires parts != []
    requires forall i :: 0 <= i < |parts| ==> NoChar(parts[i], c)
    ensures Split(JoinWith(parts, c), c) == parts
  {
    if |parts| == 1 {
      SplitPiece(parts[0], "", c);
    } else {
      SplitJoin(parts[1..], c);
      SplitPiece(parts[0], JoinWith(parts[1..], c), c);
      assert [parts[0]] + parts[1..] == parts;
    }
  }

  /** `s.lstrip()` */
  function TrimLeft(s: string): (t: string)
    ensures |t| <= |s| && t == s[|s| - |t|..]
    ensures t == [] || !IsSpace(t[0])
    ensures forall i :: 0 <= i < |s| - |t| ==> IsSpace(s[i])
  {
    if s != [] && IsSpace(s[0]) then TrimLeft(s[1..]) else s
  }

  /** `s.rstrip()` */
  function TrimRight(s: string): (t: string)
    ensures |t| <= |s| && t == s[..|t|]
    ensures t == [] || !IsSpace(t[|t| - 1])
    ensures forall i :: |t| <= i < |s| ==> IsSpace(s[i])
  {
    if s != [] && IsSpace(s[|s| - 1]) then TrimRight(s[..|s| - 1]) else s
  }

  /** `t` occurs in `s` at offset `k` with nothing but whitespace around it. */
  predicate SpacedAt(s: string, t: string, k: int) {
    && OccursAt(s, t, k)
    && (forall i :: 0 <= i < k ==> IsSpace(s[i]))
    && (forall i :: k + |t| <= i < |s| ==> IsSpace(s[i]))
  }

  /** `s.strip()`: the slice of `s` left once the whitespace at both ends is
      removed; only whitespace is removed, and none is left at either end. */
  function Strip(s: string): (t: string)
    ensures exists k :: SpacedAt(s, t, k)
    ensures t == [] || (!IsSpace(t[0]) && !IsSpace(t[|t| - 1]))
  {
    var l := TrimLeft(s);
    var t := TrimRight(l);
    StripSpacedAt(s, l, t);
    t
  }

  lemma {:induction false} StripSpacedAt(s: string, l: string, t: string)
    requires l == TrimLeft(s) && t == TrimRight(l)
    ensures SpacedAt(s, t, |s| - |l|)
  {
    var k := |s| - |l|;
    assert l == s[k..];
    SuffixPrefix(s, k, t);
    forall i | k + |t| <= i < |s| ensures IsSpace(s[i]) {
      assert s[i] == l[i - k];
    }
  }

  /** A prefix of the suffix of `s` from `k` occurs in `s` at `k`. */
  lemma SuffixPrefix(s: string, k: int, t: string)
    requires 0 <= k <= |s| && |t| <= |s| - k && t == s[k..][..|t|]
    ensures OccursAt(s, t, k)
  {
    assert s[k..][..|t|] == s[k..k + |t|];
  }

  /** The longest prefix of `s` without whitespace. */
  function TakeWord(s: string): (w: string)
    ensures |w| <= |s| && w == s[..|w|]
    ensures NoSpace(w)
    ensures |w| == |s| || IsSpace(s[|w|])
    ensures s != [] && !IsSpace(s[0]) ==> w != []
  {
    if s == [] || IsSpace(s[0]) then [] else [s[0]] + TakeWord(s[1..])
  }

  /** Non-empty tokens without whitespace. */
  predicate AreWords(words: seq<string>) {
    forall i :: 0 <= i < |words| ==> words[i] != [] && NoSpace(words[i])
  }

  /** `s.split()`: the maximal runs of non-whitespace characters. */
  function SplitWhitespace(s: string): (r: seq<string>)
    decreases |s|
  {
    var t := TrimLeft(s);
    if t == [] then []
    else
      var w := TakeWord(t);
      [w] + SplitWhitespace(t[|w|..])
  }

  /** Every token of `s.split()` is non-empty and free of whitespace. */
  lemma {:induction false} SplitWhitespaceWords(s: string)
    ensures AreWords(SplitWhitespace(s))
    decreases |s|
  {
    var t := TrimLeft(s);
    if t != [] {
      var w := TakeWord(t);
      var rest := t[|w|..];
      SplitWhitespaceWords(rest);
      AreWordsCons(w, SplitWhitespace(rest));
    }
  }

  lemma AreWordsCons(w: string, words: seq<string>)
    requires w != [] && NoSpace(w) && AreWords(words)
    ensures AreWords([w] + words)
  {
    var r := [w] + words;
    forall i | 0 <= i < |r| ensures r[i] != [] && NoSpace(r[i]) {
      if i == 0 {
        assert r[0] == w;
      } else {
        assert r[i] == words[i - 1];
      }
    }
  }

  /** A non-empty sequence is its head followed by its tail. */
  lemma HeadTail<T>(s: seq<T>)
    requires s != []
    ensures [s[0]] + s[1..] == s
  {
  }

  lemma {:induction false} TakeWordOfWord(w: string, rest: string)
    requires NoSpace(w)
    requires rest == [] || IsSpace(rest[0])
    ensures TakeWord(w + rest) == w
  {
    if w == [] {
      assert w + rest == rest;
    } else {
      assert (w + rest)[1..] == w[1..] + rest;
      TakeWordOfWord(w[1..], rest);
      assert [w[0]] + w[1..] == w;
    }
  }

  lemma {:induction false} SplitWhitespaceSpace(c: char, rest: string)
    requires IsSpace(c)
    ensures SplitWhitespace([c] + rest) == SplitWhitespace(rest)
  {
    assert ([c] + rest)[1..] == rest;
  }

  /** A word followed by whitespace (or nothing) is split off as one token. */
  lemma SplitWhitespaceWord(w: string, rest: string)
    requires w != [] && NoSpace(w)
    requires rest == [] || IsSpace(rest[0])
    ensures SplitWhitespace(w + rest) == [w] + SplitWhitespace(rest)
  {
    var s := w + rest;
    assert s[0] == w[0];
    assert TrimLeft(s) == s;
    TakeWordOfWord(w, rest);
    assert s[|w|..] == rest;
  }

  /** A word followed by one space splits off as one token. */
  lemma SplitWhitespaceWordSpace(w: string, tail: string)
    requires w != [] && NoSpace(w)
    ensures SplitWhitespace(w + [' '] + tail) == [w] + SplitWhitespace(tail)
  {
    assert w + [' '] + tail == w + ([' '] + tail);
    SplitWhitespaceWord(w, [' '] + tail);
    SplitWhitespaceSpace(' ', tail);
  }

  lemma AreWordsTail(words: seq<string>)
    requires words != [] && AreWords(words)
    ensures AreWords(words[1..])
  {
    forall i | 0 <= i < |words| - 1 ensures words[1..][i] == words[i + 1] { }
  }

  /** Splitting words joined by single spaces gives the words back. */
  lemma {:induction false} SplitWhitespaceJoin(words: seq<string>)
    requires AreWords(words)
    ensures SplitWhitespace(JoinWith(words, ' ')) == words
  {
    if words == [] {
      assert JoinWith(words, ' ') == "";
    } else if |words| == 1 {
      var w := words[0];
      SplitWhitespaceWord(w, "");
      assert w + "" == w;
      assert JoinWith(words, ' ') == w;
    } else {
      var w := words[0];
      var tail := JoinWith(words[1..], ' ');
      assert JoinWith(words, ' ') == w + [' '] + tail;
      SplitWhitespaceWordSpace(w, tail);
      AreWordsTail(words);
      SplitWhitespaceJoin(words[1..]);
      HeadTail(words);
    }
  }

  /** Whitespace only. */
  predicate AllSpace(g: string) {
    forall i :: 0 <= i < |g| ==> IsSpace(g[i])
  }

  /** The words `ws` with the gap `gaps[i]` before word `i` and the gap
      `gaps[|ws|]` after the last one. */
  function Interleave(ws: seq<string>, gaps: seq<string>): string
    requires |gaps| == |ws| + 1
    decreases |ws|
  {
    if ws == [] then gaps[0] else gaps[0] + ws[0] + Interleave(ws[1..], gaps[1..])
  }

  /** Gaps that are whitespace, non-empty between two words: leading and
      trailing runs of whitespace and padding of any width. */
  predicate AreGaps(ws: seq<string>, gaps: seq<string>) {
    && |gaps| == |ws| + 1
    && (forall i :: 0 <= i < |gaps| ==> AllSpace(gaps[i]))
    && (forall i :: 0 < i < |ws| ==> gaps[i] != [])
  }

  /** Leading whitespace does not change `split()`. */
  lemma {:induction false} SplitWhitespaceSpaces(g: string, rest: string)
    requires AllSpace(g)
    ensures SplitWhitespace(g + rest) == SplitWhitespace(rest)
    decreases |g|
  {
    if g == [] {
      assert g + rest == rest;
    } else {
      assert g + rest == [g[0]] + (g[1..] + rest);
      SplitWhitespaceSpace(g[0], g[1..] + rest);
      SplitWhitespaceSpaces(g[1..], rest);
    }
  }

  /** Text made of words and whitespace gaps splits into exactly the words:
      `split()` ignores the width of padding and the whitespace at both ends. */
  lemma {:induction false} SplitWhitespaceInterleave(ws: seq<string>, gaps: seq<string>)
    requires AreWords(ws) && AreGaps(ws, gaps)
    ensures SplitWhitespace(Interleave(ws, gaps)) == ws
    decreases |ws|
  {
    if ws == [] {
      SplitWhitespaceSpaces(gaps[0], "");
      assert gaps[0] + "" == gaps[0];
    } else {
      var w := ws[0];
      var rest := Interleave(ws[1..], gaps[1..]);
      InterleaveCons(ws, gaps);
      SplitWhitespaceSpaces(gaps[0], w + rest);
      AreGapsTail(ws, gaps);
      InterleaveStartsWithSpace(ws[1..], gaps[1..]);
      SplitWhitespaceWord(w, rest);
      AreWordsTail(ws);
      SplitWhitespaceInterleave(ws[1..], gaps[1..]);
      HeadTail(ws);
    }
  }

  lemma InterleaveCons(ws: seq<string>, gaps: seq<string>)
    requires |gaps| == |ws| + 1 && ws != []
    ensures Interleave(ws, gaps) == gaps[0] + (ws[0] + Interleave(ws[1..], gaps[1..]))
  {
    AppendAssoc(gaps[0], ws[0], Interleave(ws[1..], gaps[1..]));
  }

  lemma AreGapsTail(ws: seq<string>, gaps: seq<string>)
    requires AreGaps(ws, gaps) && ws != []
    ensures AreGaps(ws[1..], gaps[1..])
    ensures ws[1..] != [] ==> gaps[1..][0] != []
  {
    forall i | 0 < i < |ws| - 1 ensures gaps[1..][i] != [] {
      assert gaps[1..][i] == gaps[i + 1];
    }
    forall i | 0 <= i < |gaps| - 1 ensures AllSpace(gaps[1..][i]) {
      assert gaps[1..][i] == gaps[i + 1];
    }
  }

  /** Text that begins with a whitespace gap is empty or begins with
      whitespace. */
  lemma InterleaveStartsWithSpace(ws: seq<string>, gaps: seq<string>)
    requires |gaps| == |ws| + 1 && AllSpace(gaps[0]) && (ws == [] || gaps[0] != [])
    ensures Interleave(ws, gaps) == [] || IsSpace(Interleave(ws, gaps)[0])
  {
    if ws != [] {
      assert Interleave(ws, gaps)[0] == gaps[0][0];
    }
  }

  /** A tool line, words joined by single spaces and ended by a newline,
      splits into the words. */
  lemma {:induction false} SplitWhitespaceLine(ws: seq<string>)
    requires AreWords(ws)
    ensures SplitWhitespace(JoinWith(ws, ' ') + "\n") == ws
    decreases |ws|
  {
    if |ws| <= 1 {
      SplitWhitespaceShortLine(ws);
    } else {
      AreWordsTail(ws);
      SplitWhitespaceLine(ws[1..]);
      SplitWhitespaceLineCons(ws);
    }
  }

  lemma SplitWhitespaceLineCons(ws: seq<string>)
    requires |ws| >= 2 && AreWords(ws)
    requires SplitWhitespace(JoinWith(ws[1..], ' ') + "\n") == ws[1..]
    ensures SplitWhitespace(JoinWith(ws, ' ') + "\n") == ws
  {
    JoinLineCons(ws);
    SplitWhitespaceWordSpace(ws[0], JoinWith(ws[1..], ' ') + "\n");
    HeadTail(ws);
  }

  lemma SplitWhitespaceShortLine(ws: seq<string>)
    requires |ws| <= 1 && AreWords(ws)
    ensures SplitWhitespace(JoinWith(ws, ' ') + "\n") == ws
  {
    if ws == [] {
      assert JoinWith(ws, ' ') + "\n" == "\n";
      SplitWhitespaceNewline();
    } else {
      assert JoinWith(ws, ' ') == ws[0];
      SplitWhitespaceWordLine(ws[0]);
      assert [ws[0]] == ws;
    }
  }

  lemma SplitWhitespaceWordLine(w: string)
    requires w != [] && NoSpace(w)
    ensures SplitWhitespace(w + "\n") == [w]
  {
    SplitWhitespaceWord(w, "\n");
    SplitWhitespaceNewline();
  }

  lemma SplitWhitespaceNewline()
    ensures SplitWhitespace("\n") == []
  {
    assert "\n" == ['\n'] + "";
    SplitWhitespaceSpace('\n', "");
  }

  lemma JoinLineCons(ws: seq<string>)
    requires |ws| >= 2
    ensures JoinWith(ws, ' ') + "\n" == ws[0] + [' '] + (JoinWith(ws[1..], ' ') + "\n")
  {
    AppendAssoc(ws[0] + [' '], JoinWith(ws[1..], ' '), "\n");
  }

  /** A word followed by a newline strips to the word. */
  lemma StripWordNewline(w: string)
    requires w != [] && NoSpace(w)
    ensures Strip(w + "\n") == w
  {
    var s := w + "\n";
    assert s[0] == w[0];
    assert TrimLeft(s) == s;
    assert s[..|s| - 1] == w;
    assert TrimRight(w) == w;
    assert TrimRight(s) == TrimRight(w);
  }

  lemma StartsWithAppend(s: string, p: string, b: string)
    requires StartsWith(s, p)
    ensures StartsWith(s + b, p)
  {
    assert (s + b)[..|p|] == s[..|p|];
  }

  lemma EndsWithPrepend(a: string, s: string, p: string)
    requires EndsWith(s, p)
    ensures EndsWith(a + s, p)
  {
    assert (a + s)[|a + s| - |p|..] == s[|s| - |p|..];
  }

  /** `n` spaces. */
  function Spaces(n: nat): (r: string)
    ensures |r| == n && forall i :: 0 <= i < n ==> r[i] == ' '
  {
    seq(n, _ => ' ')
  }

  /** `'%-*s' % (width, s)`: left-justified, padded on the right. */
  function PadRight(s: string, width: nat): (r: string)
    ensures |r| == if |s| < width then width else |s|
    ensures r[..|s|] == s
    ensures forall i :: |s| <= i < |r| ==> r[i] == ' '
  {
    if |s| < width then s + Spaces(width - |s|) else s
  }

  /** `'%*s' % (width, s)`: right-justified, padded on the left. */
  function PadLeft(s: string, width: nat): (r: string)
    ensures |r| == if |s| < width then width else |s|
    ensures r[|r| - |s|..] == s
    ensures forall i :: 0 <= i < |r| - |s| ==> r[i] == ' '
  {
    if |s| < width then Spaces(width - |s|) + s else s
  }

  /** `s[:n]` */
  function Truncate(s: string, n: nat): (r: string)
    ensures |r| <= n && StartsWith(s, r)
    ensures |s| <= n ==> r == s
  {
    if |s| <= n then s else s[..n]
  }
}
