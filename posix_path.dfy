/** The parts of Python's `posixpath` module the data manager calls:
    `isabs`, `join` (two arguments), `basename` and `normpath`. */
module PosixPath {
  import opened Strings

  /** `posixpath.isabs(p)` */
  predicate IsAbs(p: string) {
    StartsWith(p, "/")
  }

  /** `posixpath.join(a, b)`: an absolute `b` replaces `a`; otherwise `b` is
      appended to `a` with one `/` in between, added only when `a` is
      non-empty and does not already end in `/`. */
  function Join(a: string, b: string): (r: string)
    ensures EndsWith(r, b)
    ensures IsAbs(b) ==> r == b
    ensures !IsAbs(b) ==> StartsWith(r, a) && |r| <= |a| + 1 + |b|
    ensures !IsAbs(b) && a != "" ==> |a| < |r| - |b| + 1 && r[|r| - |b| - 1] == '/'
    ensures !IsAbs(b) && a == "" ==> r == b
    ensures !IsAbs(b) && EndsWith(a, "/") ==> r == a + b
  {
    if IsAbs(b) then b
    else if a == "" || EndsWith(a, "/") then a + b
    else a + "/" + b
  }

  /** `posixpath.basename(p)`: everything after the last `/`. */
  function Basename(p: string): (r: string)
    ensures EndsWith(p, r) && NoChar(r, '/')
    ensures |r| < |p| ==> p[|p| - |r| - 1] == '/'
  {
    if p == "" || p[|p| - 1] == '/' then ""
    else
      var q, c := p[..|p| - 1], p[|p| - 1];
      var b := Basename(q);
      var r := b + [c];
      assert p == q + [c];
      assert p[|q| - |b|..] == q[|q| - |b|..] + [c];
      assert forall i :: 0 <= i < |b| ==> r[i] == b[i];
      assert |b| < |q| ==> p[|p| - |r| - 1] == q[|q| - |b| - 1];
      r
  }

  /** How many leading slashes `normpath` keeps: POSIX gives two leading
      slashes a meaning of their own, while three or more count as one. */
  function InitialSlashes(p: string): (k: nat)
    ensures k <= 2 && (k > 0 <==> IsAbs(p))
  {
    if StartsWith(p, "//") && !StartsWith(p, "///") then 2
    else if StartsWith(p, "/") then 1
    else 0
  }

  function Slashes(k: nat): (r: string)
    ensures |r| == k && forall i :: 0 <= i < k ==> r[i] == '/'
  {
    seq(k, _ => '/')
  }

  /** One step of `normpath`'s loop over the components: drop empty and `.`
      components; a `..` removes the previous component, except that it is
      kept at the start of a relative path or after another `..`, and is
      dropped at the root of an absolute one. */
  function Step(acc: seq<string>, comp: string, absolute: bool): seq<string>
  {
    if comp == "" || comp == "." then acc
    else if comp != ".." || (!absolute && acc == []) || (acc != [] && acc[|acc| - 1] == "..") then acc + [comp]
    else if acc != [] then acc[..|acc| - 1]
    else acc
  }

  function Fold(comps: seq<string>, acc: seq<string>, absolute: bool): seq<string>
  {
    if comps == [] then acc else Fold(comps[1..], Step(acc, comps[0], absolute), absolute)
  }

  /** `posixpath.normpath(p)`. */
  function Normpath(p: string): string
  {
    if p == "" then "."
    else
      var k := InitialSlashes(p);
      var q := Slashes(k) + JoinWith(Fold(Split(p, '/'), [], k > 0), '/');
      if q == "" then "." else q
  }

  /** Components as `normpath` leaves them: none empty, none `.`, none holding
      a `/`, and a `..` only in a leading run of `..` of a relative path. */
  predicate NormalComponents(comps: seq<string>, absolute: bool) {
    && (forall i :: 0 <= i < |comps| ==> comps[i] != "" && comps[i] != "." && NoChar(comps[i], '/'))
    && (forall i :: 0 <= i < |comps| && comps[i] == ".." ==> !absolute && forall j :: 0 <= j < i ==> comps[j] == "..")
  }

  /** A path in normal form: `.`, or its leading slashes (as `normpath`
      counts them) followed by normal components joined by single slashes. */
  predicate NormalForm(r: string) {
    r == "." ||
    (r != "" &&
     var k := InitialSlashes(r);
     var rest := r[k..];
     (rest == "" ==> k > 0) &&
     (rest != "" ==> NormalComponents(Split(rest, '/'), k > 0)))
  }

  lemma StepNormal(acc: seq<string>, comp: string, absolute: bool)
    requires NormalComponents(acc, absolute) && NoChar(comp, '/')
    ensures NormalComponents(Step(acc, comp, absolute), absolute)
  {
    var r := Step(acc, comp, absolute);
    if comp != "" && comp != "." && comp == ".." && !((!absolute && acc == []) || (acc != [] && acc[|acc| - 1] == "..")) && acc != [] {
      assert r == acc[..|acc| - 1];
      forall i | 0 <= i < |r| ensures r[i] == acc[i] { }
    } else if r == acc + [comp] {
      forall i | 0 <= i < |r| && r[i] == ".."
        ensures !absolute && forall j :: 0 <= j < i ==> r[j] == ".."
      {
        if i == |acc| {
          assert comp == "..";
          if acc != [] {
            assert acc[|acc| - 1] == "..";
          }
        }
      }
    }
  }

  lemma {:induction false} FoldNormal(comps: seq<string>, acc: seq<string>, absolute: bool)
    requires NormalComponents(acc, absolute)
    requires forall i :: 0 <= i < |comps| ==> NoChar(comps[i], '/')
    ensures NormalComponents(Fold(comps, acc, absolute), absolute)
  {
    if comps != [] {
      StepNormal(acc, comps[0], absolute);
      FoldNormal(comps[1..], Step(acc, comps[0], absolute), absolute);
    }
  }

  /** Folding components that are already normal changes nothing. */
  lemma {:induction false} FoldNormalIdentity(comps: seq<string>, acc: seq<string>, absolute: bool)
    requires NormalComponents(acc + comps, absolute)
    ensures Fold(comps, acc, absolute) == acc + comps
  {
    if comps != [] {
      var c := comps[0];
      var all := acc + comps;
      assert all[|acc|] == c;
      if c == ".." && acc != [] {
        assert all[|acc| - 1] == acc[|acc| - 1];
      }
      assert Step(acc, c, absolute) == acc + [c];
      assert (acc + [c]) + comps[1..] == all;
      FoldNormalIdentity(comps[1..], acc + [c], absolute);
    }
  }

  lemma FoldSkipsEmpty(comps: seq<string>, acc: seq<string>, absolute: bool)
    ensures Fold([""] + comps, acc, absolute) == Fold(comps, acc, absolute)
  {
    assert ([""] + comps)[1..] == comps;
  }

  /** The pieces of a path made of `k` slashes and then `rest`. */
  lemma SplitSlashes(k: nat, rest: string)
    requires k <= 2
    ensures Split(Slashes(k) + rest, '/') == seq(k, _ => "") + Split(rest, '/')
  {
    if k == 1 {
      assert (Slashes(1) + rest)[1..] == rest;
    } else if k == 2 {
      assert (Slashes(2) + rest)[1..] == Slashes(1) + rest;
      assert (Slashes(1) + rest)[1..] == rest;
    } else {
      assert Slashes(0) + rest == rest;
    }
  }

  /** Folding after `k` leading empty pieces is folding without them. */
  lemma FoldAfterSlashes(k: nat, rest: string, absolute: bool)
    requires k <= 2
    ensures Fold(Split(Slashes(k) + rest, '/'), [], absolute) == Fold(Split(rest, '/'), [], absolute)
  {
    SplitSlashes(k, rest);
    var pieces := Split(rest, '/');
    if k == 1 {
      FoldSkipsEmpty(pieces, [], absolute);
    } else if k == 2 {
      assert seq(2, _ => "") + pieces == [""] + ([""] + pieces);
      FoldSkipsEmpty([""] + pieces, [], absolute);
      FoldSkipsEmpty(pieces, [], absolute);
    } else {
      assert seq(0, _ => "") + pieces == pieces;
    }
  }

  /** `k` leading slashes followed by a string that does not start with a
      slash are counted as `k` leading slashes. */
  lemma InitialSlashesOf(k: nat, rest: string)
    requires k <= 2
    requires rest == "" || rest[0] != '/'
    requires k == 0 ==> rest != ""
    ensures InitialSlashes(Slashes(k) + rest) == k
  {
    var p := Slashes(k) + rest;
    if k == 0 {
      assert p == rest;
    } else if k == 1 {
      assert p[0] == '/';
      assert !StartsWith(p, "//") by {
        if |p| >= 2 { assert p[1] == rest[0]; }
      }
    } else {
      assert p[..2] == "//";
      assert !StartsWith(p, "///") by {
        if |p| >= 3 { assert p[2] == rest[0]; }
      }
    }
  }

  /** `normpath` always yields a path in normal form, absolute exactly when
      its argument is. */
  lemma NormpathIsNormal(p: string)
    ensures NormalForm(Normpath(p))
    ensures IsAbs(Normpath(p)) <==> IsAbs(p)
  {
    if p != "" {
      var k := InitialSlashes(p);
      var comps := Fold(Split(p, '/'), [], k > 0);
      FoldNormal(Split(p, '/'), [], k > 0);
      var body := JoinWith(comps, '/');
      var q := Slashes(k) + body;
      if comps != [] {
        SplitJoin(comps, '/');
        assert body[0] == comps[0][0] by {
          if |comps| > 1 {
            assert body == comps[0] + ("/" + JoinWith(comps[1..], '/'));
          }
        }
      }
      if q != "" {
        InitialSlashesOf(k, body);
        assert q[k..] == body;
        if k > 0 {
          assert q[0] == '/';
        } else {
          assert q == body && q[0] == comps[0][0];
        }
      }
    }
  }

  /** `normpath` leaves a path in normal form unchanged. */
  lemma NormpathFixesNormal(r: string)
    requires NormalForm(r)
    ensures Normpath(r) == r
  {
    if r == "." {
      assert "."[1..] == "";
      assert Split(".", '/') == [['.'] + ""] + [""][1..];
    } else {
      var k := InitialSlashes(r);
      var rest := r[k..];
      assert r == Slashes(k) + rest;
      FoldAfterSlashes(k, rest, k > 0);
      if rest == "" {
        assert Split(rest, '/') == [""];
        assert Fold([""], [], k > 0) == [];
      } else {
        var comps := Split(rest, '/');
        assert [] + comps == comps;
        FoldNormalIdentity(comps, [], k > 0);
        JoinSplit(rest, '/');
      }
    }
  }

  /** `normpath` is idempotent. */
  lemma NormpathIdempotent(p: string)
    ensures Normpath(Normpath(p)) == Normpath(p)
  {
    NormpathIsNormal(p);
    NormpathFixesNormal(Normpath(p));
  }
}
