/** Windows-style paths as the file manager's commands take them (`c:/test.txt`,
    `../test.txt`, `d:/`): text with an optional drive designator and `/` or
    `\` as separators, and the absolute, normalised path they denote. */
module Paths {
  import opened Strings

  predicate IsSep(c: char) {
    c == '/' || c == '\\'
  }

  predicate IsDriveLetter(c: char) {
    'a' <= c <= 'z' || 'A' <= c <= 'Z'
  }

  /** The text begins with a drive designator such as `d:`. */
  predicate HasDrive(s: string) {
    |s| >= 2 && IsDriveLetter(s[0]) && s[1] == ':'
  }

  /** The text contains no separator. */
  predicate NoSep(s: string) {
    '/' !in s && '\\' !in s
  }

  /** A segment of a normalised path: non-empty, free of separators and
      neither `.` nor `..`. */
  predicate IsSegment(n: string) {
    n != "" && n != "." && n != ".." && NoSep(n)
  }

  /** An absolute, normalised path: a drive and the directory names below
      its root. */
  datatype Path = Path(drive: char, segs: seq<string>)

  predicate ValidPath(p: Path) {
    IsDriveLetter(p.drive) && forall i :: 0 <= i < |p.segs| ==> IsSegment(p.segs[i])
  }

  function Root(drive: char): Path {
    Path(drive, [])
  }

  /** `path.dirname` of an absolute path: the root is its own parent. */
  function Parent(p: Path): (q: Path)
    ensures q.drive == p.drive
    ensures p.segs == [] ==> q == p
    ensures p.segs != [] ==> p.segs == q.segs + [p.segs[|p.segs| - 1]]
    ensures ValidPath(p) ==> ValidPath(q)
  {
    if p.segs == [] then p else Path(p.drive, p.segs[..|p.segs| - 1])
  }

  function Child(p: Path, n: string): Path {
    Path(p.drive, p.segs + [n])
  }

  /** The last segment, or the empty string for a root. */
  function Name(p: Path): string {
    if p.segs == [] then "" else p.segs[|p.segs| - 1]
  }

  /** One piece of a path during normalisation: empty pieces and `.` stay
      put, `..` goes to the parent, anything else descends. */
  function Step(p: Path, piece: string): Path {
    if piece == "" || piece == "." then p
    else if piece == ".." then Parent(p)
    else Child(p, piece)
  }

  function Walk(p: Path, pieces: seq<string>): Path
    decreases |pieces|
  {
    if pieces == [] then p else Walk(Step(p, pieces[0]), pieces[1..])
  }

  /** Both separators read as `\`. */
  function Unslash(s: string): (r: string)
    ensures |r| == |s|
  {
    seq(|s|, i requires 0 <= i < |s| => if s[i] == '/' then '\\' else s[i])
  }

  /** The pieces between separators. */
  function Pieces(s: string): seq<string> {
    Split(Unslash(s), '\\')
  }

  /** `path.resolve(cwd, s)`: text with a drive and a separator after it is
      absolute on that drive; a drive without a separator is relative to the
      working directory when it is the working drive and to the root of that
      drive otherwise; a leading separator is the root of the working drive;
      anything else is relative to the working directory. */
  function Resolve(cwd: Path, s: string): Path {
    if HasDrive(s) then
      var base := if (|s| > 2 && IsSep(s[2])) || s[0] != cwd.drive then Root(s[0]) else cwd;
      Walk(base, Pieces(s[2..]))
    else if |s| > 0 && IsSep(s[0]) then Walk(Root(cwd.drive), Pieces(s))
    else Walk(cwd, Pieces(s))
  }

  /** The text `path.resolve` prints for a path: `d:\a\b`, or `d:\` for a root. */
  function Format(p: Path): string {
    [p.drive, ':', '\\'] + Join(p.segs, "\\")
  }

  /** `path.join(a, b)` where `b` names one directory entry; joining the empty
      name leaves `a` as it is. */
  function JoinStr(a: string, b: string): string {
    if b == "" then a else a + "\\" + b
  }

  /** `s` without its trailing separators. */
  function StripSeps(s: string): (r: string)
    ensures |r| <= |s|
    ensures r == [] || !IsSep(r[|r| - 1])
  {
    if s != [] && IsSep(s[|s| - 1]) then StripSeps(s[..|s| - 1]) else s
  }

  /** What `StripSeps` removes: a suffix made only of separators. */
  lemma {:induction false} StripSepsShape(s: string)
    ensures var r := StripSeps(s);
      && r == s[..|r|]
      && forall i :: |r| <= i < |s| ==> IsSep(s[i])
    decreases |s|
  {
    if s != [] && IsSep(s[|s| - 1]) {
      StripSepsShape(s[..|s| - 1]);
    }
  }

  /** The text after the last separator. */
  function LastPiece(s: string): string {
    if s == [] || IsSep(s[|s| - 1]) then []
    else LastPiece(s[..|s| - 1]) + [s[|s| - 1]]
  }

  /** The last piece is a separator-free suffix, preceded by a separator
      unless it is the whole text. */
  lemma {:induction false} LastPieceShape(s: string)
    ensures var r := LastPiece(s);
      && |r| <= |s| && r == s[|s| - |r|..]
      && (|r| < |s| ==> IsSep(s[|s| - |r| - 1]))
    decreases |s|
  {
    if s != [] && !IsSep(s[|s| - 1]) {
      var init := s[..|s| - 1];
      LastPieceShape(init);
      var r0 := LastPiece(init);
      assert init[|init| - |r0|..] + [s[|s| - 1]] == s[|s| - |r0| - 1..];
    }
  }

  /** `path.basename(s)`: the drive designator is ignored, then trailing
      separators, and what follows the last remaining separator is the name. */
  function Basename(s: string): string {
    var t := if HasDrive(s) then s[2..] else s;
    LastPiece(StripSeps(t))
  }

  // ---- properties -------------------------------------------------------

  lemma {:induction false} WalkConcat(p: Path, a: seq<string>, b: seq<string>)
    ensures Walk(p, a + b) == Walk(Walk(p, a), b)
    decreases |a|
  {
    if a == [] {
      assert a + b == b;
    } else {
      assert (a + b)[1..] == a[1..] + b;
      WalkConcat(Step(p, a[0]), a[1..], b);
    }
  }

  /** Walking proper segments appends them. */
  lemma {:induction false} WalkSegments(p: Path, segs: seq<string>)
    requires forall i :: 0 <= i < |segs| ==> IsSegment(segs[i])
    ensures Walk(p, segs) == Path(p.drive, p.segs + segs)
    decreases |segs|
  {
    if segs != [] {
      WalkSegments(Child(p, segs[0]), segs[1..]);
      assert p.segs + [segs[0]] + segs[1..] == p.segs + segs;
    }
  }

  /** Normalisation only ever produces a valid path. */
  lemma {:induction false} WalkValid(p: Path, pieces: seq<string>)
    requires ValidPath(p)
    requires forall i :: 0 <= i < |pieces| ==> NoSep(pieces[i])
    ensures ValidPath(Walk(p, pieces))
    decreases |pieces|
  {
    if pieces != [] {
      var q := Step(p, pieces[0]);
      assert ValidPath(q) by {
        if q == Child(p, pieces[0]) && q != p && q != Parent(p) {
          assert IsSegment(pieces[0]);
        }
      }
      WalkValid(q, pieces[1..]);
    }
  }

  lemma PiecesNoSep(s: string)
    ensures forall i :: 0 <= i < |Pieces(s)| ==> NoSep(Pieces(s)[i])
  {
    var u := Unslash(s);
    SplitPiecesFree(u, '\\');
    forall i | 0 <= i < |Pieces(s)| ensures '/' !in Pieces(s)[i] {
      SplitChars(u, '\\', i);
    }
  }

  lemma {:induction false} SplitChars(s: string, sep: char, i: nat)
    requires i < |Split(s, sep)|
    ensures forall c :: c in Split(s, sep)[i] ==> c in s
    decreases |s|
  {
    if s != [] {
      var rest := Split(s[1..], sep);
      if s[0] == sep {
        if i > 0 {
          SplitChars(s[1..], sep, i - 1);
        }
      } else if i == 0 {
        SplitChars(s[1..], sep, 0);
      } else {
        SplitChars(s[1..], sep, i);
      }
    }
  }

  /** Every path the commands resolve is a valid path. */
  lemma ResolveValid(cwd: Path, s: string)
    requires ValidPath(cwd)
    ensures ValidPath(Resolve(cwd, s))
  {
    if HasDrive(s) {
      PiecesNoSep(s[2..]);
      WalkValid(if (|s| > 2 && IsSep(s[2])) || s[0] != cwd.drive then Root(s[0]) else cwd, Pieces(s[2..]));
    } else {
      PiecesNoSep(s);
      WalkValid(if |s| > 0 && IsSep(s[0]) then Root(cwd.drive) else cwd, Pieces(s));
    }
  }

  lemma UnslashConcat(a: string, b: string)
    ensures Unslash(a + b) == Unslash(a) + Unslash(b)
  {
    var l, r := Unslash(a + b), Unslash(a) + Unslash(b);
    forall i | 0 <= i < |l| ensures l[i] == r[i] {
      if i < |a| {
        assert (a + b)[i] == a[i];
      } else {
        assert (a + b)[i] == b[i - |a|];
      }
    }
  }

  lemma UnslashNoSep(s: string)
    requires '/' !in s
    ensures Unslash(s) == s
  {
  }

  /** The pieces of `a\n` are those of `a` followed by `n`. */
  lemma PiecesJoin(a: string, n: string)
    requires NoSep(n)
    ensures Pieces(a + "\\" + n) == Pieces(a) + [n]
  {
    assert Unslash(a + "\\" + n) == Unslash(a) + "\\" + n by {
      UnslashConcat(a + "\\", n);
      UnslashConcat(a, "\\");
      UnslashNoSep(n);
    }
    SplitConcat(Unslash(a), n, '\\');
    SplitNoSep(n, '\\');
  }

  /** Resolving `a\n` for a separator-free `n` takes one normalisation step
      from the directory `a` resolves to, unless `a` is a bare drive `d:`. */
  lemma ResolveJoin(cwd: Path, a: string, n: string)
    requires a != "" && NoSep(n)
    requires !(HasDrive(a) && |a| == 2)
    ensures Resolve(cwd, a + "\\" + n) == Step(Resolve(cwd, a), n)
  {
    var s := a + "\\" + n;
    assert s[0] == a[0];
    if HasDrive(a) {
      assert s[1] == a[1] && s[2] == a[2];
      assert s[2..] == a[2..] + "\\" + n;
      PiecesJoin(a[2..], n);
      var base := if (|s| > 2 && IsSep(s[2])) || s[0] != cwd.drive then Root(s[0]) else cwd;
      WalkConcat(base, Pieces(a[2..]), [n]);
    } else {
      assert !HasDrive(s) by {
        if |a| >= 2 {
          assert s[1] == a[1];
        } else {
          assert s[1] == '\\';
        }
      }
      PiecesJoin(a, n);
      WalkConcat(if |s| > 0 && IsSep(s[0]) then Root(cwd.drive) else cwd, Pieces(a), [n]);
    }
  }

  /** A bare drive joined with a name is absolute on that drive: `d:` and `n`
      give `d:\n` whatever the working directory. */
  lemma ResolveJoinBareDrive(cwd: Path, a: string, n: string)
    requires HasDrive(a) && |a| == 2 && NoSep(n)
    ensures Resolve(cwd, a + "\\" + n) == Step(Root(a[0]), n)
  {
    var s := a + "\\" + n;
    assert s[0] == a[0] && s[1] == a[1] && s[2] == '\\';
    assert s[2..] == "" + "\\" + n;
    PiecesJoin("", n);
    assert Pieces("") == [""] by {
      assert Unslash("") == "";
    }
    WalkSkip(Root(a[0]), [n]);
    assert [n][1..] == [];
  }

  /** An empty piece (from a doubled, leading or trailing separator) changes
      nothing. */
  lemma WalkSkip(p: Path, rest: seq<string>)
    ensures Walk(p, [""] + rest) == Walk(p, rest)
  {
    assert ([""] + rest)[1..] == rest;
  }

  lemma {:induction false} JoinNoSep(parts: seq<string>)
    requires forall i :: 0 <= i < |parts| ==> NoSep(parts[i])
    ensures '/' !in Join(parts, "\\")
  {
    if |parts| > 1 {
      JoinNoSep(parts[1..]);
    }
  }

  /** Round trip: resolving the printed form of a valid path gives the path
      back, from any working directory. */
  lemma ResolveFormat(cwd: Path, p: Path)
    requires ValidPath(p)
    ensures Resolve(cwd, Format(p)) == p
  {
    var s := Format(p);
    var j := Join(p.segs, "\\");
    assert s[0] == p.drive && s[1] == ':' && s[2] == '\\';
    assert s[2..] == "" + "\\" + j;
    JoinNoSep(p.segs);
    UnslashConcat("\\", j);
    UnslashNoSep(j);
    assert Unslash(s[2..]) == "" + "\\" + j;
    SplitConcat("", j, '\\');
    assert Pieces(s[2..]) == [""] + Split(j, '\\');
    WalkSkip(Root(p.drive), Split(j, '\\'));
    if p.segs == [] {
      assert Split(j, '\\') == [""];
      WalkSkip(Root(p.drive), []);
    } else {
      SplitJoin(p.segs, '\\');
      WalkSegments(Root(p.drive), p.segs);
    }
  }

  /** A separator-free text resolves by one normalisation step from the
      working directory. */
  lemma ResolveBare(cwd: Path, n: string)
    requires NoSep(n) && !HasDrive(n)
    ensures Resolve(cwd, n) == Step(cwd, n)
  {
    UnslashNoSep(n);
    SplitNoSep(n, '\\');
    assert Pieces(n) == [n];
    assert [n][1..] == [];
    if n != [] {
      assert n[0] in n;
      assert !IsSep(n[0]);
    }
    assert Walk(cwd, [n]) == Step(cwd, n);
  }

  /** The bare-name rule: a non-empty text is its own basename exactly when it
      has no separator and no drive designator. */
  lemma BasenameBare(s: string)
    requires s != ""
    ensures Basename(s) == s <==> NoSep(s) && !HasDrive(s)
  {
    var t := if HasDrive(s) then s[2..] else s;
    var u := StripSeps(t);
    LastPieceShape(u);
    if Basename(s) == s {
      assert |s| <= |u| <= |t| <= |s|;
      assert t == s && u == s;
      assert NoSep(s) by {
        LastPieceNoSep(s);
      }
    }
    if NoSep(s) && !HasDrive(s) {
      forall i | 0 <= i < |s| ensures !IsSep(s[i]) {
        assert s[i] in s;
      }
    }
  }

  lemma {:induction false} JoinLast(parts: seq<string>)
    requires |parts| >= 2
    ensures Join(parts, "\\") == Join(parts[..|parts| - 1], "\\") + "\\" + parts[|parts| - 1]
  {
    if |parts| > 2 {
      JoinLast(parts[1..]);
      assert parts[1..][..|parts| - 2] == parts[..|parts| - 1][1..];
    } else {
      assert parts[..1] == [parts[0]];
    }
  }

  lemma {:induction false} LastPieceNoSep(s: string)
    ensures NoSep(LastPiece(s))
    decreases |s|
  {
    if s != [] && !IsSep(s[|s| - 1]) {
      LastPieceNoSep(s[..|s| - 1]);
    }
  }

  /** The basename of a name after its last separator. */
  lemma LastPieceAfterSep(a: string, n: string)
    requires NoSep(n) && n != ""
    ensures LastPiece(StripSeps(a + "\\" + n)) == n
  {
    var s := a + "\\" + n;
    assert s[|s| - 1] == n[|n| - 1];
    assert n[|n| - 1] in n;
    assert StripSeps(s) == s;
    LastPieceAppend(a + "\\", n);
  }

  /** After a separator (or at the start), a separator-free text is the
      whole last piece. */
  lemma {:induction false} LastPieceAppend(pre: string, n: string)
    requires pre == [] || IsSep(pre[|pre| - 1])
    requires NoSep(n)
    ensures LastPiece(pre + n) == n
    decreases |n|
  {
    var s := pre + n;
    if n == [] {
      assert s == pre;
    } else {
      var init := n[..|n| - 1];
      assert s[|s| - 1] == n[|n| - 1];
      assert n[|n| - 1] in n;
      assert s[..|s| - 1] == pre + init;
      assert NoSep(init) by {
        assert forall c :: c in init ==> c in n;
      }
      LastPieceAppend(pre, init);
      assert init + [n[|n| - 1]] == n;
    }
  }

  /** A path below a root prints as its parent's text (just the drive
      designator for a top-level entry), a separator and its name. */
  lemma FormatParent(p: Path)
    requires p.segs != []
    ensures Format(p) == (if |p.segs| == 1 then [p.drive, ':'] else Format(Parent(p))) + "\\" + Name(p)
  {
    if |p.segs| > 1 {
      JoinLast(p.segs);
    }
  }

  /** `path.basename` of a printed path is its last segment. */
  lemma BasenameFormat(p: Path)
    requires ValidPath(p)
    ensures Basename(Format(p)) == Name(p)
  {
    var s := Format(p);
    if p.segs == [] {
      assert s[2..] == "\\";
      assert StripSeps(s[2..]) == "";
    } else {
      FormatParent(p);
      var a := if |p.segs| == 1 then [p.drive, ':'] else Format(Parent(p));
      assert s[2..] == a[2..] + "\\" + Name(p);
      LastPieceAfterSep(a[2..], Name(p));
    }
  }
}
