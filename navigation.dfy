/** Navigation: `cd`, `up` and `ls`. `cd` checks its argument, applies the
    root-designator rule and enters the directory it names; `ls` reads the
    working directory, sorts the entries directories first and turns them
    into a table of names and kinds. Both act on the working-directory
    cell. */
module Navigation {
  import opened Results
  import opened Strings
  import opened Paths
  import opened FileSystem
  import opened Workdir

  // ---- cd and up ----------------------------------------------------------

  /** `path.parse(p)` has an empty base and a dir equal to its root: `p`
      names a root and nothing below it. That is a drive designator
      followed only by separators (`d:`, `d:/`, `d:\`, `d://`), or a
      non-empty run of separators alone (`/`, `\`, `//`, `\\`). */
  predicate IsRootDesignator(p: string) {
    || (HasDrive(p) && forall i :: 2 <= i < |p| ==> IsSep(p[i]))
    || (|p| >= 1 && forall i :: 0 <= i < |p| ==> IsSep(p[i]))
  }

  /** The directory `cd p` enters: a blank argument is rejected; a root
      designator is first joined with `./`; any other argument is taken as
      it is, untrimmed, relative to the working directory. */
  function CdPlan(cwd: Path, p: string): (r: Result<Path>)
    ensures r.Failure? ==> r.error == InvalidInput
  {
    if Trim(p) == "" then Failure(InvalidInput)
    else
      var dir := if IsRootDesignator(p) then JoinStr(p, "./") else p;
      Success(Resolve(cwd, dir))
  }

  /** A result together with the working directory left behind. */
  datatype Moved = Moved(result: Result<()>, dir: Path)

  /** `process.chdir`: only a directory can be entered; a refused change
      reports `Operation failed` and leaves the directory as it was. */
  function CdEffect(e: Entries, cwd: Path, plan: Result<Path>): Moved {
    match plan
    case Failure(err) => Moved(Failure(err), cwd)
    case Success(d) =>
      if IsDir(e, d) then Moved(Success(()), d) else Moved(Failure(OperationFailed), cwd)
  }

  method Cd(w: Cell, fs: FileTable, p: string) returns (r: Result<()>)
    modifies w
    ensures Moved(r, w.dir) == CdEffect(fs.entries, old(w.dir), CdPlan(old(w.dir), p))
  {
    var cwd := w.Get();
    r := RunCd(w, fs, CdPlan(cwd, p));
  }

  method RunCd(w: Cell, fs: FileTable, plan: Result<Path>) returns (r: Result<()>)
    modifies w
    ensures Moved(r, w.dir) == CdEffect(fs.entries, old(w.dir), plan)
  {
    if plan.Failure? {
      return Failure(plan.error);
    }
    if !IsDir(fs.entries, plan.value) {
      return Failure(OperationFailed);
    }
    w.Set(plan.value);
    r := Success(());
  }

  /** `up` is `cd('..')`. */
  method Up(w: Cell, fs: FileTable) returns (r: Result<()>)
    modifies w
    ensures Moved(r, w.dir) == CdEffect(fs.entries, old(w.dir), CdPlan(old(w.dir), ".."))
  {
    r := Cd(w, fs, "..");
  }

  /** The pieces of the texts a root designator resolves through. */
  lemma RootPieces()
    ensures Split("", '\\') == [""]
    ensures Split("\\.\\", '\\') == ["", ".", ""]
  {
    SplitNoSep(".", '\\');
    SplitConcat(".", "", '\\');
    assert ".\\" == "." + ['\\'] + "";
    SplitConcat("", ".\\", '\\');
    assert "\\.\\" == "" + ['\\'] + ".\\";
  }

  /** Empty pieces and `.` leave a path where it is. */
  lemma {:induction false} WalkStays(p: Path, pieces: seq<string>)
    requires forall i :: 0 <= i < |pieces| ==> pieces[i] in {"", "."}
    ensures Walk(p, pieces) == p
    decreases |pieces|
  {
    if pieces != [] {
      assert pieces[0] in {"", "."};
      WalkStays(p, pieces[1..]);
    }
  }

  /** A run of separators in front of text that leaves a path where it is
      leaves it there too: each separator adds only an empty piece. */
  lemma {:induction false} SepRunStays(q: Path, u: string, t: string)
    requires forall i :: 0 <= i < |u| ==> u[i] == '\\'
    requires Walk(q, Split(t, '\\')) == q
    ensures Walk(q, Split(u + t, '\\')) == q
    decreases |u|
  {
    if u == [] {
      assert u + t == t;
    } else {
      SepRunStays(q, u[1..], t);
      var rest := u[1..] + t;
      assert u + t == "" + ['\\'] + rest;
      SplitConcat("", rest, '\\');
      assert Split(u + t, '\\') == [""] + Split(rest, '\\');
      assert ([""] + Split(rest, '\\'))[1..] == Split(rest, '\\');
    }
  }

  /** A run of separators, alone or followed by `\\.\\`, resolves to the
      path it starts from. */
  lemma SepRunResolves(q: Path, s: string)
    requires forall i :: 0 <= i < |s| ==> IsSep(s[i])
    ensures Walk(q, Pieces(s)) == q
    ensures Walk(q, Pieces(s + "\\./")) == q
  {
    RootPieces();
    var u := Unslash(s);
    UnslashConcat(s, "\\./");
    assert Unslash("\\./") == "\\.\\";
    WalkStays(q, ["", ".", ""]);
    assert Walk(q, [""]) == q;
    SepRunStays(q, u, "");
    assert u + "" == u;
    SepRunStays(q, u, "\\.\\");
  }

  /** `cd` rejects exactly an argument made of whitespace or nothing. A
      root designator enters the root of its drive (the working drive for
      a bare separator); any other argument enters the untrimmed argument
      resolved against the working directory. */
  lemma CdTargetRule(cwd: Path, p: string)
    ensures CdPlan(cwd, p).Failure? <==> forall i :: 0 <= i < |p| ==> IsWhitespace(p[i])
    ensures IsRootDesignator(p) ==>
      CdPlan(cwd, p) == Success(Root(if HasDrive(p) then p[0] else cwd.drive))
    ensures !IsRootDesignator(p) && CdPlan(cwd, p).Success? ==> CdPlan(cwd, p).value == Resolve(cwd, p)
  {
    TrimBlank(p);
    if IsRootDesignator(p) {
      assert !IsWhitespace(p[0]);
      RootJoin(cwd, p);
    }
  }

  /** Longer runs of separators still designate a root: `d://` enters the
      root of `d`, and `//` the root of the working drive. */
  lemma CdLongRoots(cwd: Path)
    ensures CdPlan(cwd, "d://") == Success(Root('d'))
    ensures CdPlan(cwd, "//") == Success(Root(cwd.drive))
  {
    assert IsRootDesignator("d://");
    assert IsRootDesignator("//");
    CdTargetRule(cwd, "d://");
    CdTargetRule(cwd, "//");
  }

  /** `path.join(p, './')` of a root designator resolves to that root. */
  lemma RootJoin(cwd: Path, p: string)
    requires IsRootDesignator(p)
    ensures Resolve(cwd, JoinStr(p, "./")) == Root(if HasDrive(p) then p[0] else cwd.drive)
  {
    var dir := JoinStr(p, "./");
    assert dir == p + "\\./";
    if HasDrive(p) {
      assert dir[2..] == p[2..] + "\\./";
      SepRunResolves(Root(p[0]), p[2..]);
    } else {
      SepRunResolves(Root(cwd.drive), p);
    }
  }

  /** The root-designator rule changes the outcome only for the bare drive
      `d:` of the working drive away from its root: elsewhere plain
      resolution already gives the root. */
  lemma CdRootRuleMatters(cwd: Path, p: string)
    requires CdPlan(cwd, p).Success?
    ensures CdPlan(cwd, p).value != Resolve(cwd, p) <==>
      HasDrive(p) && |p| == 2 && p[0] == cwd.drive && cwd.segs != []
  {
    CdTargetRule(cwd, p);
    if IsRootDesignator(p) {
      if HasDrive(p) {
        SepRunResolves(Root(p[0]), p[2..]);
        if |p| == 2 {
          SepRunResolves(cwd, p[2..]);
        }
      } else {
        SepRunResolves(Root(cwd.drive), p);
      }
    }
  }

  /** `up` enters the parent of the working directory. */
  lemma UpPlan(cwd: Path)
    ensures CdPlan(cwd, "..") == Success(Parent(cwd))
  {
    assert Trim("..") == "..";
    assert Unslash("..") == "..";
    SplitNoSep("..", '\\');
  }

  /** At a root `up` leaves the working directory where it is. */
  lemma UpAtRoot(e: Entries, cwd: Path)
    requires cwd.segs == []
    ensures CdEffect(e, cwd, CdPlan(cwd, "..")).dir == cwd
  {
    UpPlan(cwd);
  }

  /** A blank argument or a refused change leaves the working directory as
      it was; a change succeeds exactly onto a directory. */
  lemma CdEffectRule(e: Entries, cwd: Path, plan: Result<Path>)
    ensures var m := CdEffect(e, cwd, plan);
      && (m.result.Success? <==> plan.Success? && IsDir(e, plan.value))
      && (m.result.Success? ==> m.dir == plan.value)
      && (m.result.Failure? ==> m.dir == cwd)
      && (m.result.Failure? ==> m.result.error == if plan.Failure? then plan.error else OperationFailed)
  {
  }

  /** The working directory stays a valid directory across `cd`. */
  lemma CdKeepsDirectory(e: Entries, cwd: Path, p: string)
    requires ValidPath(cwd) && IsDir(e, cwd)
    ensures var m := CdEffect(e, cwd, CdPlan(cwd, p));
      ValidPath(m.dir) && IsDir(e, m.dir)
  {
    ResolveValid(cwd, if IsRootDesignator(p) then JoinStr(p, "./") else p);
  }

  // ---- ls -----------------------------------------------------------------

  /** Name order: `localeCompare`, modelled as the order of code points
      (negative, zero or positive). */
  function NameCompare(x: string, y: string): (c: int)
    ensures -1 <= c <= 1
  {
    if x == [] then (if y == [] then 0 else -1)
    else if y == [] then 1
    else if x[0] < y[0] then -1
    else if x[0] > y[0] then 1
    else NameCompare(x[1..], y[1..])
  }

  /** Names compare equal exactly when they are the same. */
  lemma {:induction false} NameCompareEqual(x: string, y: string)
    ensures NameCompare(x, y) == 0 <==> x == y
  {
    if x != [] && y != [] && x[0] == y[0] {
      NameCompareEqual(x[1..], y[1..]);
      if x[1..] == y[1..] {
        assert x == [x[0]] + x[1..] && y == [y[0]] + y[1..];
      }
    }
  }

  /** Swapping the names flips the sign. */
  lemma {:induction false} NameCompareFlip(x: string, y: string)
    ensures NameCompare(y, x) == -NameCompare(x, y)
  {
    if x != [] && y != [] && x[0] == y[0] {
      NameCompareFlip(x[1..], y[1..]);
    }
  }

  lemma {:induction false} NameCompareTrans(x: string, y: string, z: string)
    requires NameCompare(x, y) <= 0 && NameCompare(y, z) <= 0
    ensures NameCompare(x, z) <= 0
  {
    if x != [] && y != [] && z != [] && x[0] == y[0] == z[0] {
      NameCompareTrans(x[1..], y[1..], z[1..]);
    }
  }

  /** The comparator `ls` intends: directories before files, then by name. */
  function Compare(a: Dirent, b: Dirent): int {
    if a.isDirectory == b.isDirectory then NameCompare(a.name, b.name)
    else if a.isDirectory then -1
    else 1
  }

  /** The comparator as written: it passes the entry `b` itself to
      `localeCompare`, which compares the name of `a` with the text
      `[object Object]`. */
  function CompareAsWritten(a: Dirent, b: Dirent): int {
    if a.isDirectory == b.isDirectory then NameCompare(a.name, "[object Object]")
    else if a.isDirectory then -1
    else 1
  }

  /** As written, two files `a` and `b` each sort after the other, so no
      order of them agrees with the comparator. */
  lemma AsWrittenInconsistent()
    ensures var a, b := Dirent("a", false), Dirent("b", false);
      CompareAsWritten(a, b) > 0 && CompareAsWritten(b, a) > 0
  {
    assert "a" == ['a'] && "b" == ['b'];
    assert "[object Object]"[0] == '[';
  }

  /** The intended comparator is consistent: swapping flips the sign and
      only identical entries compare equal. */
  lemma CompareFlip(a: Dirent, b: Dirent)
    ensures Compare(b, a) == -Compare(a, b)
    ensures Compare(a, b) == 0 <==> a == b
  {
    NameCompareFlip(a.name, b.name);
    NameCompareEqual(a.name, b.name);
  }

  lemma CompareTrans(a: Dirent, b: Dirent, c: Dirent)
    requires Compare(a, b) <= 0 && Compare(b, c) <= 0
    ensures Compare(a, c) <= 0
  {
    if a.isDirectory == b.isDirectory == c.isDirectory {
      NameCompareTrans(a.name, b.name, c.name);
    }
  }

  predicate Sorted(xs: seq<Dirent>) {
    forall i, j :: 0 <= i < j < |xs| ==> Compare(xs[i], xs[j]) <= 0
  }

  /** In sorted order every directory precedes every file, and entries of
      one kind are in name order. */
  lemma SortedDirectoriesFirst(xs: seq<Dirent>)
    requires Sorted(xs)
    ensures forall i, j :: 0 <= i < j < |xs| && xs[j].isDirectory ==> xs[i].isDirectory
    ensures forall i, j :: 0 <= i < j < |xs| && xs[i].isDirectory == xs[j].isDirectory ==>
      NameCompare(xs[i].name, xs[j].name) <= 0
  {
    forall i, j | 0 <= i < j < |xs| && xs[j].isDirectory
      ensures xs[i].isDirectory
    {
      assert Compare(xs[i], xs[j]) <= 0;
    }
  }

  /** The sort of the listing, in place, by the intended comparator. */
  method SortEntries(a: array<Dirent>)
    modifies a
    ensures Sorted(a[..])
    ensures multiset(a[..]) == multiset(old(a[..]))
  {
    if a.Length == 0 {
      return;
    }
    for i := 1 to a.Length
      invariant Sorted(a[..i])
      invariant multiset(a[..]) == multiset(old(a[..]))
    {
      InsertStart(a[..], i);
      var j := i;
      while j > 0 && Compare(a[j - 1], a[j]) > 0
        invariant 0 <= j <= i
        invariant Inserting(a[..], i, j)
        invariant multiset(a[..]) == multiset(old(a[..]))
      {
        ghost var s := a[..];
        InsertSwap(s, i, j);
        a[j - 1], a[j] := a[j], a[j - 1];
        assert a[..] == s[j - 1 := s[j]][j := s[j - 1]];
        j := j - 1;
      }
      InsertDone(a[..], i, j);
    }
    assert a[..] == a[..a.Length];
  }

  /** Midway through inserting element `i`: the prefix up to `i` is sorted
      apart from position `j`, and the entry at `j` precedes all after it. */
  predicate Inserting(s: seq<Dirent>, i: int, j: int)
    requires 0 <= j <= i < |s|
  {
    && (forall k, l :: 0 <= k < l <= i && k != j && l != j ==> Compare(s[k], s[l]) <= 0)
    && (forall l :: j < l <= i ==> Compare(s[j], s[l]) <= 0)
  }

  lemma InsertStart(s: seq<Dirent>, i: int)
    requires 0 < i < |s| && Sorted(s[..i])
    ensures Inserting(s, i, i)
  {
    forall k, l | 0 <= k < l < i
      ensures Compare(s[k], s[l]) <= 0
    {
      assert s[..i][k] == s[k] && s[..i][l] == s[l];
    }
  }

  /** Swapping a misplaced entry with its left neighbour moves the gap one
      step down and keeps the entries. */
  lemma InsertSwap(s: seq<Dirent>, i: int, j: int)
    requires 0 < j <= i < |s| && Inserting(s, i, j)
    requires Compare(s[j - 1], s[j]) > 0
    ensures Inserting(s[j - 1 := s[j]][j := s[j - 1]], i, j - 1)
    ensures multiset(s[j - 1 := s[j]][j := s[j - 1]]) == multiset(s)
  {
    CompareFlip(s[j - 1], s[j]);
    var t := s[j - 1 := s[j]][j := s[j - 1]];
    forall l | j - 1 < l <= i
      ensures Compare(t[j - 1], t[l]) <= 0
    {
      if l > j {
        assert t[l] == s[l];
      }
    }
  }

  /** The entry that moved down to `j` sits between its neighbours, so the
      prefix up to `i` is sorted. */
  lemma InsertDone(s: seq<Dirent>, i: int, j: int)
    requires 0 <= j <= i < |s| && Inserting(s, i, j)
    requires j > 0 ==> Compare(s[j - 1], s[j]) <= 0
    ensures Sorted(s[..i + 1])
  {
    var t := s[..i + 1];
    forall k, l | 0 <= k < l < |t|
      ensures Compare(t[k], t[l]) <= 0
    {
      if l == j && k < j - 1 {
        CompareTrans(s[k], s[j - 1], s[j]);
      }
    }
  }

  /** Entries with distinct names occur once each. */
  lemma {:induction false} DistinctOnce(xs: seq<Dirent>, v: Dirent)
    requires forall i, j :: 0 <= i < j < |xs| ==> xs[i].name != xs[j].name
    ensures multiset(xs)[v] <= 1
  {
    if xs != [] {
      var rest := xs[1..];
      assert xs == [xs[0]] + rest;
      DistinctOnce(rest, v);
      if xs[0] == v {
        forall i | 0 <= i < |rest| ensures rest[i] != v {
          assert rest[i] == xs[i + 1];
        }
        assert v !in multiset(rest);
      }
    }
  }

  /** Any reordering of a listing is a listing. */
  lemma PermutedListing(e: Entries, dir: Path, xs: seq<Dirent>, ys: seq<Dirent>)
    requires Listing(e, dir, xs) && multiset(ys) == multiset(xs)
    ensures Listing(e, dir, ys)
  {
    assert |ys| == |multiset(ys)| == |xs|;
    forall i | 0 <= i < |ys| ensures DescribesChild(e, dir, ys[i]) {
      assert ys[i] in multiset(xs);
      var k :| 0 <= k < |xs| && xs[k] == ys[i];
    }
    forall i, j | 0 <= i < j < |ys| ensures ys[i].name != ys[j].name {
      if ys[i].name == ys[j].name {
        assert ys[i] in multiset(xs) && ys[j] in multiset(xs);
        var k :| 0 <= k < |xs| && xs[k] == ys[i];
        var l :| 0 <= l < |xs| && xs[l] == ys[j];
        assert k == l;
        TwiceCounted(ys, i, j);
        DistinctOnce(xs, ys[i]);
      }
    }
  }

  /** Two positions holding the same entry count it twice. */
  lemma TwiceCounted(ys: seq<Dirent>, i: int, j: int)
    requires 0 <= i < j < |ys| && ys[i] == ys[j]
    ensures multiset(ys)[ys[i]] >= 2
  {
    assert ys == ys[..j] + ys[j..];
    assert ys[i] in ys[..j];
    assert ys[j] in ys[j..];
  }

  /** One row of the table `ls` prints. */
  datatype Row = Row(name: string, kind: string)

  /** The table `ls` prints: one row per entry, in order, with the entry's
      name and the kind `directory` or `file`. */
  function ToRows(xs: seq<Dirent>): (rows: seq<Row>)
    ensures |rows| == |xs|
    ensures forall i :: 0 <= i < |xs| ==> rows[i].kind in {"directory", "file"}
  {
    if xs == [] then []
    else [Row(xs[0].name, if xs[0].isDirectory then "directory" else "file")] + ToRows(xs[1..])
  }

  /** Reading the table back: a row of kind `directory` is a directory. */
  function FromRows(rows: seq<Row>): (xs: seq<Dirent>)
    ensures |xs| == |rows|
  {
    if rows == [] then []
    else [Dirent(rows[0].name, rows[0].kind == "directory")] + FromRows(rows[1..])
  }

  /** The table keeps every name and kind, in order: reading it back gives
      the sorted entries. */
  lemma {:induction false} RowsRoundTrip(xs: seq<Dirent>)
    ensures FromRows(ToRows(xs)) == xs
  {
    if xs != [] {
      RowsRoundTrip(xs[1..]);
    }
  }

  /** The entries `readdir` returned, put into an array and sorted there. */
  method SortListing(xs: seq<Dirent>) returns (ys: seq<Dirent>)
    ensures Sorted(ys) && multiset(ys) == multiset(xs)
  {
    var a := new Dirent[|xs|](i => if 0 <= i < |xs| then xs[i] else Dirent("", false));
    assert a[..] == xs;
    SortEntries(a);
    ys := a[..];
  }

  /** `ls`: read the working directory, sort the entries, build the rows. A
      failure of `readdir` is passed on as it is. */
  method Ls(w: Cell, fs: FileTable) returns (r: Result<seq<Row>>)
    ensures r.Success? <==> IsDir(fs.entries, w.dir)
    ensures r.Failure? ==> r.error == SystemError
    ensures r.Success? ==>
      var xs := FromRows(r.value);
      Listing(fs.entries, w.dir, xs) && Sorted(xs) && r.value == ToRows(xs)
  {
    var cwd := w.Get();
    var read := fs.ReadDir(cwd);
    if read.Failure? {
      return Failure(read.error);
    }
    var xs := read.value;
    var sorted := SortListing(xs);
    PermutedListing(fs.entries, cwd, xs, sorted);
    RowsRoundTrip(sorted);
    r := Success(ToRows(sorted));
  }
}
