/** The file system the handlers act on, as a table from absolute paths to
    entries, with the primitive operations `node:fs/promises` offers them.
    A primitive that fails reports the operating system's error, which the
    handlers then translate. */
module FileSystem {
  import opened Results
  import opened Paths

  newtype byte = x: int | 0 <= x < 256

  datatype Entry = File(data: seq<byte>) | Directory

  type Entries = map<Path, Entry>

  /** A directory entry as `readdir(dir, { withFileTypes: true })` yields it. */
  datatype Dirent = Dirent(name: string, isDirectory: bool)

  predicate IsFile(e: Entries, p: Path) {
    p in e && e[p].File?
  }

  predicate IsDir(e: Entries, p: Path) {
    p in e && e[p].Directory?
  }

  /** Every entry sits at a valid path, and every entry below a root sits in
      a directory. */
  predicate WellFormed(e: Entries) {
    forall p :: p in e ==> ValidPath(p) && (p.segs != [] ==> IsDir(e, Parent(p)))
  }

  /** `open(p, 'wx')` can create `p`: nothing is there yet and its parent is
      a directory. */
  predicate CanCreate(e: Entries, p: Path) {
    p !in e && p.segs != [] && IsDir(e, Parent(p))
  }

  /** `rename(src, dst)` of a file: the target is no directory and sits in a
      directory; an existing file there is replaced. */
  predicate CanRename(e: Entries, src: Path, dst: Path) {
    IsFile(e, src) && !IsDir(e, dst) && dst.segs != [] && IsDir(e, Parent(dst))
  }

  function Renamed(e: Entries, src: Path, dst: Path): Entries
    requires src in e
  {
    (e - {src})[dst := e[src]]
  }

  /** The entries directly inside `dir`. */
  function Children(e: Entries, dir: Path): set<Path> {
    set q | q in e && q.segs != [] && Parent(q) == dir
  }

  /** `xs` lists the entries of `dir`, each once, with its kind. */
  predicate Listing(e: Entries, dir: Path, xs: seq<Dirent>) {
    && |xs| == |Children(e, dir)|
    && (forall i :: 0 <= i < |xs| ==> DescribesChild(e, dir, xs[i]))
    && (forall i, j :: 0 <= i < j < |xs| ==> xs[i].name != xs[j].name)
  }

  /** `d` names an entry of `dir` and tells its kind. */
  predicate DescribesChild(e: Entries, dir: Path, d: Dirent) {
    Child(dir, d.name) in e && Child(dir, d.name).segs != []
      && d.isDirectory == e[Child(dir, d.name)].Directory?
  }

  /** An entry of `dir` is described by its name and kind. */
  lemma DescribeChild(e: Entries, dir: Path, q: Path)
    requires q in Children(e, dir)
    ensures Child(dir, Name(q)) == q
    ensures DescribesChild(e, dir, Dirent(Name(q), e[q].Directory?))
  {
  }

  // ---- the primitives keep the table well formed -------------------------

  lemma CreatePreserves(e: Entries, p: Path)
    requires WellFormed(e) && CanCreate(e, p) && ValidPath(p)
    ensures WellFormed(e[p := File([])])
  {
  }

  lemma WritePreserves(e: Entries, p: Path, data: seq<byte>)
    requires WellFormed(e) && IsFile(e, p)
    ensures WellFormed(e[p := File(data)])
  {
  }

  /** Removing a file leaves no entry without its directory: a file has no
      entries inside it. */
  lemma RemovePreserves(e: Entries, p: Path)
    requires WellFormed(e) && IsFile(e, p)
    ensures WellFormed(e - {p})
  {
    forall q | q in e - {p} && q.segs != []
      ensures IsDir(e - {p}, Parent(q))
    {
      assert IsDir(e, Parent(q));
    }
  }

  lemma RenamePreserves(e: Entries, src: Path, dst: Path)
    requires WellFormed(e) && CanRename(e, src, dst) && ValidPath(dst)
    ensures WellFormed(Renamed(e, src, dst))
  {
    RemovePreserves(e, src);
    var f := e - {src};
    assert IsDir(f, Parent(dst));
    forall q | q in f && q.segs != []
      ensures Parent(q) != dst
    {
      assert IsDir(f, Parent(q));
    }
  }

  class FileTable {
    /** Everything on disk. */
    var entries: Entries

    constructor (entries: Entries)
      ensures this.entries == entries
    {
      this.entries := entries;
    }

    /** Opening and reading a file: only a file can be read, and reading
        yields its whole content. */
    method Read(p: Path) returns (r: Result<seq<byte>>)
      ensures r.Success? <==> IsFile(entries, p)
      ensures r.Success? ==> r.value == entries[p].data
      ensures r.Failure? ==> r.error == SystemError
    {
      if p in entries && entries[p].File? {
        r := Success(entries[p].data);
      } else {
        r := Failure(SystemError);
      }
    }

    /** `open(p, 'wx')`: creates an empty file, and fails without touching
        anything when `p` already exists or has no directory to go in. */
    method Create(p: Path) returns (r: Result<()>)
      modifies this
      ensures r.Success? <==> CanCreate(old(entries), p)
      ensures r.Failure? ==> r.error == SystemError
      ensures entries == if r.Success? then old(entries)[p := File([])] else old(entries)
    {
      if CanCreate(entries, p) {
        entries := entries[p := File([])];
        r := Success(());
      } else {
        r := Failure(SystemError);
      }
    }

    /** Writing through a handle on a file replaces its content. */
    method Write(p: Path, data: seq<byte>) returns (r: Result<()>)
      modifies this
      ensures r.Success? <==> IsFile(old(entries), p)
      ensures r.Failure? ==> r.error == SystemError
      ensures entries == if r.Success? then old(entries)[p := File(data)] else old(entries)
    {
      if IsFile(entries, p) {
        entries := entries[p := File(data)];
        r := Success(());
      } else {
        r := Failure(SystemError);
      }
    }

    /** `rm(p)` without `recursive`: removes a file; a directory or a missing
        path is an error. */
    method Remove(p: Path) returns (r: Result<()>)
      modifies this
      ensures r.Success? <==> IsFile(old(entries), p)
      ensures r.Failure? ==> r.error == SystemError
      ensures entries == if r.Success? then old(entries) - {p} else old(entries)
    {
      if IsFile(entries, p) {
        entries := entries - {p};
        r := Success(());
      } else {
        r := Failure(SystemError);
      }
    }

    /** `rename(src, dst)` of a file. */
    method Rename(src: Path, dst: Path) returns (r: Result<()>)
      modifies this
      ensures r.Success? <==> CanRename(old(entries), src, dst)
      ensures r.Failure? ==> r.error == SystemError
      ensures entries == if r.Success? then Renamed(old(entries), src, dst) else old(entries)
    {
      if CanRename(entries, src, dst) {
        entries := Renamed(entries, src, dst);
        r := Success(());
      } else {
        r := Failure(SystemError);
      }
    }

    /** `readdir(dir, { withFileTypes: true })`: the entries of a directory,
        each once, in an order the model leaves open. */
    method ReadDir(dir: Path) returns (r: Result<seq<Dirent>>)
      ensures r.Success? <==> IsDir(entries, dir)
      ensures r.Failure? ==> r.error == SystemError
      ensures r.Success? ==> Listing(entries, dir, r.value)
    {
      if !IsDir(entries, dir) {
        return Failure(SystemError);
      }
      var remaining := Children(entries, dir);
      var xs: seq<Dirent> := [];
      ghost var listed: set<Path> := {};
      while remaining != {}
        invariant ListingSoFar(entries, dir, xs, listed, remaining)
        decreases |remaining|
      {
        var q :| q in remaining;
        ListOneMore(entries, dir, xs, listed, remaining, q);
        xs := xs + [Dirent(Name(q), entries[q].Directory?)];
        listed := listed + {q};
        remaining := remaining - {q};
      }
      ListingDone(entries, dir, xs, listed);
      r := Success(xs);
    }
  }

  /** Midway through `readdir`: `xs` lists the entries `listed` of `dir`
      and `remaining` holds the others. */
  ghost predicate ListingSoFar(e: Entries, dir: Path, xs: seq<Dirent>, listed: set<Path>, remaining: set<Path>) {
    && remaining !! listed
    && remaining + listed == Children(e, dir)
    && PartialListing(e, dir, xs, listed)
  }

  /** `xs` lists the entries `listed` of `dir`, each once, with its kind. */
  ghost predicate PartialListing(e: Entries, dir: Path, xs: seq<Dirent>, listed: set<Path>) {
    && |xs| == |listed|
    && (forall i :: 0 <= i < |xs| ==> Child(dir, xs[i].name) in listed)
    && (forall i :: 0 <= i < |xs| ==> DescribesChild(e, dir, xs[i]))
    && (forall i, j :: 0 <= i < j < |xs| ==> xs[i].name != xs[j].name)
  }

  lemma ListOneMore(e: Entries, dir: Path, xs: seq<Dirent>, listed: set<Path>, remaining: set<Path>, q: Path)
    requires ListingSoFar(e, dir, xs, listed, remaining)
    requires q in remaining
    ensures ListingSoFar(e, dir, xs + [Dirent(Name(q), e[q].Directory?)], listed + {q}, remaining - {q})
  {
    DescribeOneMore(e, dir, xs, listed, q);
  }

  lemma DescribeOneMore(e: Entries, dir: Path, xs: seq<Dirent>, listed: set<Path>, q: Path)
    requires PartialListing(e, dir, xs, listed)
    requires q in Children(e, dir) && q !in listed
    ensures PartialListing(e, dir, xs + [Dirent(Name(q), e[q].Directory?)], listed + {q})
  {
    DescribeChild(e, dir, q);
    var d := Dirent(Name(q), e[q].Directory?);
    forall i | 0 <= i < |xs| ensures xs[i].name != d.name {
      assert Child(dir, xs[i].name) in listed;
    }
    var ys := xs + [d];
    assert forall i :: 0 <= i < |xs| ==> ys[i] == xs[i];
    assert ys[|xs|] == d;
  }

  lemma ListingDone(e: Entries, dir: Path, xs: seq<Dirent>, listed: set<Path>)
    requires ListingSoFar(e, dir, xs, listed, {})
    ensures Listing(e, dir, xs)
  {
    assert listed == Children(e, dir);
  }
}
