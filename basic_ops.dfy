/** The file commands `cat`, `add`, `rn`, `cp`, `mv` and `rm`. Each handler
    first checks its argument and prepares the paths it needs (a pure
    computation on the argument and the working directory, its plan), then
    runs its chain of file-system calls (the effect on the file table). A
    rejected argument fails with `Invalid input` before the file system is
    touched; every failure of the file system becomes `Operation failed`. */
module BasicOps {
  import opened Results
  import opened Strings
  import opened Util
  import opened Paths
  import opened FileSystem
  import opened Workdir

  /** How the byte stream of a copy ended: all of it went through, or it
      broke off after `written` bytes. The stream itself is outside the
      model; its outcome is an input. */
  datatype Transfer = Complete | Interrupted(written: nat)

  /** What a copy leaves in the target: all of the source, or as much as
      was written before the stream broke off. */
  function Copied(data: seq<byte>, t: Transfer): (r: seq<byte>)
    ensures t.Complete? ==> r == data
    ensures |r| == if t.Interrupted? && t.written < |data| then t.written else |data|
  {
    match t
    case Complete => data
    case Interrupted(n) => if n < |data| then data[..n] else data
  }

  /** A command's result together with the table it leaves behind. */
  datatype Outcome = Outcome(result: Result<()>, entries: Entries)

  // ---- checking the argument and preparing the paths -------------------

  /** `cat` and `rm`: the trimmed argument, rejected when empty, resolved
      against the working directory. */
  function TargetOf(cwd: Path, arg: string): (r: Result<Path>)
    ensures r.Failure? ==> r.error == InvalidInput
  {
    var name := Trim(arg);
    if name == "" then Failure(InvalidInput) else Success(Resolve(cwd, name))
  }

  /** A non-empty name that is its own basename. */
  predicate BareName(name: string) {
    name != "" && Basename(name) == name
  }

  /** `add`: the trimmed name must be bare; the file goes to
      the name joined onto the working directory, resolved. */
  function PlanAdd(cwd: Path, arg: string): (r: Result<Path>)
    ensures r.Failure? ==> r.error == InvalidInput
  {
    var name := Trim(arg);
    if !BareName(name) then Failure(InvalidInput)
    else Success(Resolve(cwd, JoinStr(Format(cwd), name)))
  }

  /** The new name joined onto the source's directory, as the normalised
      text a path join returns. */
  function RnTarget(src: Path, name: string): string {
    Format(Resolve(src, JoinStr(Format(Parent(src)), name)))
  }

  /** `rn`: two tokens, the second a bare name; the file stays in its
      directory, and a target that resolves to other text is rejected. */
  function PlanRn(cwd: Path, params: string): (r: Result<(Path, Path)>)
    ensures r.Failure? ==> r.error == InvalidInput
  {
    var tokens := SplitParams(params);
    if |tokens| < 2 || !BareName(tokens[1]) then Failure(InvalidInput)
    else RnCheck(cwd, Resolve(cwd, tokens[0]), tokens[1])
  }

  /** The check of `rn` that the joined target is already resolved text. */
  function RnCheck(cwd: Path, src: Path, name: string): (r: Result<(Path, Path)>)
    ensures r.Failure? ==> r.error == InvalidInput
  {
    var target := RnTarget(src, name);
    var dst := Resolve(cwd, target);
    if target != Format(dst) then Failure(InvalidInput) else Success((src, dst))
  }

  /** Where `cp` and `mv` put the file: the destination directory joined
      with the basename of the source, resolved. */
  function CopyTarget(cwd: Path, src: Path, destDir: string): Path {
    Resolve(cwd, JoinStr(destDir, Basename(Format(src))))
  }

  /** `cp` and `mv`: two tokens, the source file and the destination
      directory. */
  function PlanCopy(cwd: Path, params: string): (r: Result<(Path, Path)>)
    ensures r.Failure? ==> r.error == InvalidInput
  {
    var tokens := SplitParams(params);
    if |tokens| < 2 then Failure(InvalidInput)
    else
      var src := Resolve(cwd, tokens[0]);
      Success((src, CopyTarget(cwd, src, tokens[1])))
  }

  // ---- the effect on the file table ------------------------------------

  /** `cat`: open the file and stream it to the console. */
  function CatEffect(e: Entries, plan: Result<Path>, t: Transfer): (r: Result<seq<byte>>)
    ensures plan.Failure? ==> r == Failure(plan.error)
    ensures plan.Success? ==> (r.Success? <==> IsFile(e, plan.value) && t.Complete?)
    ensures plan.Success? && r.Success? ==> r.value == e[plan.value].data
    ensures plan.Success? && r.Failure? ==> r.error == OperationFailed
  {
    match plan
    case Failure(err) => Failure(err)
    case Success(p) => if !IsFile(e, p) || t.Interrupted? then Failure(OperationFailed) else Success(e[p].data)
  }

  /** `add`: `open(p, 'wx')` creates an empty file, never overwriting. */
  function AddEffect(e: Entries, plan: Result<Path>): Outcome {
    match plan
    case Failure(err) => Outcome(Failure(err), e)
    case Success(p) =>
      if CanCreate(e, p) then Outcome(Success(()), e[p := File([])])
      else Outcome(Failure(OperationFailed), e)
  }

  /** `rn`: `rename(src, dst)`. */
  function RnEffect(e: Entries, plan: Result<(Path, Path)>): Outcome {
    match plan
    case Failure(err) => Outcome(Failure(err), e)
    case Success((src, dst)) =>
      if CanRename(e, src, dst) then Outcome(Success(()), Renamed(e, src, dst))
      else Outcome(Failure(OperationFailed), e)
  }

  /** `cp`: open the source for reading, create the target exclusively and
      stream the bytes across; an interrupted stream leaves a partial
      target behind. */
  function CpEffect(e: Entries, plan: Result<(Path, Path)>, t: Transfer): Outcome {
    match plan
    case Failure(err) => Outcome(Failure(err), e)
    case Success((src, dst)) =>
      if !IsFile(e, src) || !CanCreate(e, dst) then Outcome(Failure(OperationFailed), e)
      else
        var copied := e[dst := File(Copied(e[src].data, t))];
        if t.Complete? then Outcome(Success(()), copied) else Outcome(Failure(OperationFailed), copied)
  }

  /** `mv`: the copy of `cp`, followed, once it is complete, by removal of
      the source. */
  function MvEffect(e: Entries, plan: Result<(Path, Path)>, t: Transfer): Outcome {
    var o := CpEffect(e, plan, t);
    if o.result.Success? then Outcome(Success(()), o.entries - {plan.value.0}) else o
  }

  /** `rm`: `rm(p)` removes a file. */
  function RmEffect(e: Entries, plan: Result<Path>): Outcome {
    match plan
    case Failure(err) => Outcome(Failure(err), e)
    case Success(p) =>
      if IsFile(e, p) then Outcome(Success(()), e - {p})
      else Outcome(Failure(OperationFailed), e)
  }

  // ---- the handlers -----------------------------------------------------

  method Cat(w: Cell, fs: FileTable, arg: string, t: Transfer) returns (r: Result<seq<byte>>)
    ensures r == CatEffect(fs.entries, TargetOf(w.dir, arg), t)
  {
    var cwd := w.Get();
    r := RunCat(fs, TargetOf(cwd, arg), t);
  }

  method RunCat(fs: FileTable, plan: Result<Path>, t: Transfer) returns (r: Result<seq<byte>>)
    ensures r == CatEffect(fs.entries, plan, t)
  {
    if plan.Failure? {
      return Failure(plan.error);
    }
    var read := fs.Read(plan.value);
    if read.Failure? || t.Interrupted? {
      return Failure(OperationFailed);
    }
    r := Success(read.value);
  }

  method Add(w: Cell, fs: FileTable, arg: string) returns (r: Result<()>)
    modifies fs
    ensures Outcome(r, fs.entries) == AddEffect(old(fs.entries), PlanAdd(w.dir, arg))
  {
    var cwd := w.Get();
    r := RunAdd(fs, PlanAdd(cwd, arg));
  }

  method RunAdd(fs: FileTable, plan: Result<Path>) returns (r: Result<()>)
    modifies fs
    ensures Outcome(r, fs.entries) == AddEffect(old(fs.entries), plan)
  {
    if plan.Failure? {
      return Failure(plan.error);
    }
    var created := fs.Create(plan.value);
    r := if created.Success? then Success(()) else Failure(OperationFailed);
  }

  method Rn(w: Cell, fs: FileTable, params: string) returns (r: Result<()>)
    modifies fs
    ensures Outcome(r, fs.entries) == RnEffect(old(fs.entries), PlanRn(w.dir, params))
  {
    var cwd := w.Get();
    r := RunRn(fs, PlanRn(cwd, params));
  }

  method RunRn(fs: FileTable, plan: Result<(Path, Path)>) returns (r: Result<()>)
    modifies fs
    ensures Outcome(r, fs.entries) == RnEffect(old(fs.entries), plan)
  {
    if plan.Failure? {
      return Failure(plan.error);
    }
    var (src, dst) := plan.value;
    var renamed := fs.Rename(src, dst);
    r := if renamed.Success? then Success(()) else Failure(OperationFailed);
  }

  method Cp(w: Cell, fs: FileTable, params: string, t: Transfer) returns (r: Result<()>)
    modifies fs
    ensures Outcome(r, fs.entries) == CpEffect(old(fs.entries), PlanCopy(w.dir, params), t)
  {
    var cwd := w.Get();
    r := RunCopy(fs, PlanCopy(cwd, params), t, false);
  }

  method Mv(w: Cell, fs: FileTable, params: string, t: Transfer) returns (r: Result<()>)
    modifies fs
    ensures Outcome(r, fs.entries) == MvEffect(old(fs.entries), PlanCopy(w.dir, params), t)
  {
    var cwd := w.Get();
    r := RunCopy(fs, PlanCopy(cwd, params), t, true);
  }

  /** The promise chain of `cp` (and of `mv` when `move` is set): read
      handle, exclusive write handle, the stream, and for `mv` the removal
      of the source. */
  method RunCopy(fs: FileTable, plan: Result<(Path, Path)>, t: Transfer, move: bool) returns (r: Result<()>)
    modifies fs
    ensures Outcome(r, fs.entries) == if move then MvEffect(old(fs.entries), plan, t) else CpEffect(old(fs.entries), plan, t)
  {
    if plan.Failure? {
      return Failure(plan.error);
    }
    var (src, dst) := plan.value;
    var read := fs.Read(src);
    if read.Failure? {
      return Failure(OperationFailed);
    }
    var created := fs.Create(dst);
    if created.Failure? {
      return Failure(OperationFailed);
    }
    var written := fs.Write(dst, Copied(read.value, t));
    if written.Failure? || t.Interrupted? {
      return Failure(OperationFailed);
    }
    if move {
      var removed := fs.Remove(src);
      r := if removed.Success? then Success(()) else Failure(OperationFailed);
    } else {
      r := Success(());
    }
  }

  method Rm(w: Cell, fs: FileTable, arg: string) returns (r: Result<()>)
    modifies fs
    ensures Outcome(r, fs.entries) == RmEffect(old(fs.entries), TargetOf(w.dir, arg))
  {
    var cwd := w.Get();
    r := RunRm(fs, TargetOf(cwd, arg));
  }

  method RunRm(fs: FileTable, plan: Result<Path>) returns (r: Result<()>)
    modifies fs
    ensures Outcome(r, fs.entries) == RmEffect(old(fs.entries), plan)
  {
    if plan.Failure? {
      return Failure(plan.error);
    }
    var removed := fs.Remove(plan.value);
    r := if removed.Success? then Success(()) else Failure(OperationFailed);
  }

  // ---- properties of the argument checks ---------------------------------

  /** `cat` and `rm` reject exactly a blank argument, and otherwise act on
      the trimmed argument resolved against the working directory. */
  lemma TargetOfRule(cwd: Path, arg: string)
    ensures TargetOf(cwd, arg).Failure? <==> forall i :: 0 <= i < |arg| ==> IsWhitespace(arg[i])
    ensures TargetOf(cwd, arg).Success? ==> TargetOf(cwd, arg).value == Resolve(cwd, Trim(arg))
  {
    TrimBlank(arg);
  }

  /** The bare-name rule: a non-empty name passes `path.basename(name) ===
      name` exactly when it contains no separator and does not start with a
      drive designator. */
  lemma BareNameRule(name: string)
    ensures BareName(name) <==> name != "" && NoSep(name) && !HasDrive(name)
  {
    if name != "" {
      BasenameBare(name);
    }
  }

  /** `path.join` with a name and then `path.resolve` is one step from the
      directory. */
  lemma JoinOntoFormat(cwd: Path, dir: Path, name: string)
    requires ValidPath(dir) && NoSep(name)
    ensures Resolve(cwd, JoinStr(Format(dir), name)) == Step(dir, name)
  {
    ResolveFormat(cwd, dir);
    if name != "" {
      ResolveJoin(cwd, Format(dir), name);
    }
  }

  /** `add` accepts exactly the bare names, and creates `workdir/name`: the
      entry `name` inside the working directory (its parent for `..`, the
      directory itself for `.`). */
  lemma PlanAddRule(cwd: Path, arg: string)
    requires ValidPath(cwd)
    ensures PlanAdd(cwd, arg).Success? <==> BareName(Trim(arg))
    ensures PlanAdd(cwd, arg).Success? ==> PlanAdd(cwd, arg).value == Step(cwd, Trim(arg))
  {
    if BareName(Trim(arg)) {
      BareNameRule(Trim(arg));
      JoinOntoFormat(cwd, cwd, Trim(arg));
    }
  }

  /** The resolve check of `rn` never fires: `path.join` already returns
      resolved text, so `rn` rejects exactly a missing argument or a new
      name that is not bare, and renames within the source's directory. */
  lemma PlanRnRule(cwd: Path, params: string)
    requires ValidPath(cwd)
    ensures var tokens := SplitParams(params);
      PlanRn(cwd, params).Success? <==> |tokens| >= 2 && BareName(tokens[1])
    ensures var tokens := SplitParams(params);
      PlanRn(cwd, params).Success? ==>
        var src := Resolve(cwd, tokens[0]);
        PlanRn(cwd, params).value == (src, Step(Parent(src), tokens[1]))
  {
    var tokens := SplitParams(params);
    if |tokens| >= 2 && BareName(tokens[1]) {
      ResolveValid(cwd, tokens[0]);
      RnCheckPasses(cwd, Resolve(cwd, tokens[0]), tokens[1]);
    }
  }

  /** For a valid source and a bare name the check passes, and the target is
      the name inside the source's directory. */
  lemma RnCheckPasses(cwd: Path, src: Path, name: string)
    requires ValidPath(src) && BareName(name)
    ensures RnCheck(cwd, src, name) == Success((src, Step(Parent(src), name)))
  {
    BareNameRule(name);
    JoinOntoFormat(src, Parent(src), name);
    var dst := Step(Parent(src), name);
    assert ValidPath(dst);
    ResolveFormat(cwd, dst);
  }

  /** The destination rule of `cp` and `mv`: the target is the destination
      directory with the source's name appended; a bare drive `d:` as the
      destination means the root of that drive. */
  lemma CopyTargetRule(cwd: Path, src: Path, destDir: string)
    requires ValidPath(src) && src.segs != [] && destDir != ""
    ensures !(HasDrive(destDir) && |destDir| == 2) ==>
      CopyTarget(cwd, src, destDir) == Child(Resolve(cwd, destDir), Name(src))
    ensures HasDrive(destDir) && |destDir| == 2 ==>
      CopyTarget(cwd, src, destDir) == Child(Root(destDir[0]), Name(src))
  {
    BasenameFormat(src);
    var n := Name(src);
    assert IsSegment(n) by {
      assert n == src.segs[|src.segs| - 1];
    }
    if HasDrive(destDir) && |destDir| == 2 {
      ResolveJoinBareDrive(cwd, destDir, n);
    } else {
      ResolveJoin(cwd, destDir, n);
    }
  }

  /** Planned paths are valid when the working directory is. */
  lemma TargetOfValid(cwd: Path, arg: string)
    requires ValidPath(cwd)
    ensures TargetOf(cwd, arg).Success? ==> ValidPath(TargetOf(cwd, arg).value)
  {
    ResolveValid(cwd, Trim(arg));
  }

  lemma PlanAddValid(cwd: Path, arg: string)
    requires ValidPath(cwd)
    ensures PlanAdd(cwd, arg).Success? ==> ValidPath(PlanAdd(cwd, arg).value)
  {
    ResolveValid(cwd, JoinStr(Format(cwd), Trim(arg)));
  }

  lemma PlanRnValid(cwd: Path, params: string)
    requires ValidPath(cwd)
    ensures PlanRn(cwd, params).Success? ==> ValidPath(PlanRn(cwd, params).value.0) && ValidPath(PlanRn(cwd, params).value.1)
  {
    var tokens := SplitParams(params);
    if |tokens| >= 2 && BareName(tokens[1]) {
      ResolveValid(cwd, tokens[0]);
      RnCheckValid(cwd, Resolve(cwd, tokens[0]), tokens[1]);
    }
  }

  lemma RnCheckValid(cwd: Path, src: Path, name: string)
    requires ValidPath(cwd)
    ensures RnCheck(cwd, src, name).Success? ==> ValidPath(RnCheck(cwd, src, name).value.1)
  {
    ResolveValid(cwd, RnTarget(src, name));
  }

  /** `cp` and `mv` reject exactly fewer than two tokens and ignore any
      further ones. The source is the first token resolved, and the target is
      the source's name inside the directory the second token names (the
      root of the drive for a bare `d:`). */
  lemma PlanCopyRule(cwd: Path, params: string)
    requires ValidPath(cwd)
    ensures var tokens := SplitParams(params);
      PlanCopy(cwd, params).Success? <==> |tokens| >= 2
    ensures var tokens := SplitParams(params);
      PlanCopy(cwd, params).Success? ==> PlanCopy(cwd, params).value.0 == Resolve(cwd, tokens[0])
    ensures var tokens := SplitParams(params);
      PlanCopy(cwd, params).Success? && PlanCopy(cwd, params).value.0.segs != [] ==>
        var (src, dst) := PlanCopy(cwd, params).value;
        var dir := if HasDrive(tokens[1]) && |tokens[1]| == 2 then Root(tokens[1][0]) else Resolve(cwd, tokens[1]);
        dst == Child(dir, Name(src))
  {
    var tokens := SplitParams(params);
    if |tokens| >= 2 {
      var src := Resolve(cwd, tokens[0]);
      ResolveValid(cwd, tokens[0]);
      assert IsToken(tokens[1]);
      if src.segs != [] {
        CopyTargetRule(cwd, src, tokens[1]);
      }
    }
  }

  lemma PlanCopyValid(cwd: Path, params: string)
    requires ValidPath(cwd)
    ensures PlanCopy(cwd, params).Success? ==> ValidPath(PlanCopy(cwd, params).value.0) && ValidPath(PlanCopy(cwd, params).value.1)
  {
    var tokens := SplitParams(params);
    if |tokens| >= 2 {
      var src := Resolve(cwd, tokens[0]);
      ResolveValid(cwd, tokens[0]);
      ResolveValid(cwd, JoinStr(tokens[1], Basename(Format(src))));
    }
  }

  // ---- properties of the effects ------------------------------------------

  /** Every existing entry is still there, unchanged. */
  predicate Keeps(e: Entries, e': Entries) {
    forall p :: p in e ==> p in e' && e'[p] == e[p]
  }

  /** Exclusive creation: `add` succeeds exactly when the target can be
      created, then holds an empty file there, and never changes an
      existing entry; an existing target fails with `Operation failed`. */
  lemma AddNeverOverwrites(e: Entries, plan: Result<Path>)
    ensures Keeps(e, AddEffect(e, plan).entries)
    ensures AddEffect(e, plan).result.Success? <==> plan.Success? && CanCreate(e, plan.value)
    ensures AddEffect(e, plan).result.Success? ==> AddEffect(e, plan).entries == e[plan.value := File([])]
    ensures plan.Success? && plan.value in e ==> AddEffect(e, plan) == Outcome(Failure(OperationFailed), e)
  {
  }

  /** `add .` and `add ..` always fail: they name the working directory or
      its parent, which exist. */
  lemma AddDotsFail(cwd: Path, e: Entries, arg: string)
    requires ValidPath(cwd) && WellFormed(e) && IsDir(e, cwd)
    requires Trim(arg) == "." || Trim(arg) == ".."
    ensures AddEffect(e, PlanAdd(cwd, arg)) == Outcome(Failure(OperationFailed), e)
  {
    BareNameRule(Trim(arg));
    PlanAddRule(cwd, arg);
  }

  /** `rn` replaces a file at the target but never a directory, and fails
      without any change otherwise. */
  lemma RnRule(e: Entries, plan: Result<(Path, Path)>)
    ensures var o := RnEffect(e, plan);
      o.result.Success? <==> plan.Success? && CanRename(e, plan.value.0, plan.value.1)
    ensures var o := RnEffect(e, plan);
      o.result.Failure? ==> o.entries == e
    ensures var o := RnEffect(e, plan);
      o.result.Success? ==> forall p :: p in e && p != plan.value.0 && p != plan.value.1 ==> p in o.entries && o.entries[p] == e[p]
  {
  }

  /** `cp` never overwrites: every entry that existed is unchanged, and an
      existing target, whatever it holds, fails with `Operation failed`
      before anything is written. */
  lemma CpNeverOverwrites(e: Entries, plan: Result<(Path, Path)>, t: Transfer)
    ensures Keeps(e, CpEffect(e, plan, t).entries)
    ensures plan.Success? && plan.value.1 in e ==> CpEffect(e, plan, t) == Outcome(Failure(OperationFailed), e)
  {
    if plan.Success? {
      var (src, dst) := plan.value;
      if IsFile(e, src) && CanCreate(e, dst) {
        var copied := e[dst := File(Copied(e[src].data, t))];
        forall p | p in e ensures p in copied && copied[p] == e[p] {
          assert p != dst;
        }
      }
    }
  }

  /** A successful `cp` adds exactly one new file, holding the source's
      bytes, at the target. */
  lemma CpCopiesContent(e: Entries, plan: Result<(Path, Path)>, t: Transfer)
    requires CpEffect(e, plan, t).result.Success?
    ensures var (src, dst) := plan.value;
      dst !in e && CpEffect(e, plan, t).entries == e[dst := File(e[src].data)]
  {
    var (src, dst) := plan.value;
    assert t.Complete?;
  }

  /** An interrupted copy leaves the target holding the bytes written so far
      and reports `Operation failed`. */
  lemma CpInterrupted(e: Entries, plan: Result<(Path, Path)>, n: nat)
    requires CpEffect(e, plan, Interrupted(n)).entries != e
    ensures var (src, dst) := plan.value;
      var data := e[src].data;
      && CpEffect(e, plan, Interrupted(n)).result == Failure(OperationFailed)
      && CpEffect(e, plan, Interrupted(n)).entries == e[dst := File(data[..if n < |data| then n else |data|])]
  {
    var (src, dst) := plan.value;
    CopiedPrefix(e[src].data, Interrupted(n));
  }

  /** The bytes an interrupted copy leaves are a prefix of the source. */
  lemma CopiedPrefix(data: seq<byte>, t: Transfer)
    ensures Copied(data, t) == data[..|Copied(data, t)|]
  {
  }

  /** `mv` removes the source only once the copy is complete: it succeeds
      exactly when the source is gone, fails leaving the source as it was,
      and changes no other existing entry. */
  lemma MvRemovesSourceOnlyAfterCopy(e: Entries, plan: Result<(Path, Path)>, t: Transfer)
    requires plan.Success?
    ensures var o := MvEffect(e, plan, t);
      var src := plan.value.0;
      && (o.result.Success? <==> src in e && src !in o.entries)
      && (o.result.Success? ==> t.Complete?)
      && (o.result.Failure? ==> Keeps(e, o.entries))
      && forall p :: p in e && p != src ==> p in o.entries && o.entries[p] == e[p]
  {
  }

  /** On success `mv` leaves the source's bytes at the target and nothing at
      the source. */
  lemma MvMovesContent(e: Entries, plan: Result<(Path, Path)>, t: Transfer)
    requires MvEffect(e, plan, t).result.Success?
    ensures var (src, dst) := plan.value;
      MvEffect(e, plan, t).entries == (e - {src})[dst := File(e[src].data)]
  {
    var (src, dst) := plan.value;
    assert e[dst := File(e[src].data)] - {src} == (e - {src})[dst := File(e[src].data)];
  }

  /** `rm` removes exactly a file and nothing else. */
  lemma RmRule(e: Entries, plan: Result<Path>)
    ensures var o := RmEffect(e, plan);
      o.result.Success? <==> plan.Success? && IsFile(e, plan.value)
    ensures var o := RmEffect(e, plan);
      o.entries == if o.result.Success? then e - {plan.value} else e
  {
  }

  /** The two-outcome rule: a rejected plan passes its own error on and
      leaves the table as it was; once the plan is accepted, anything the
      file system refuses is `Operation failed`. */
  predicate Reports<P>(plan: Result<P>, e: Entries, o: Outcome) {
    && (plan.Failure? ==> o == Outcome(Failure(plan.error), e))
    && (plan.Success? && o.result.Failure? ==> o.result.error == OperationFailed)
  }

  /** `add` reports by the two-outcome rule, and a failure leaves the table
      as it was. */
  lemma AddFailures(e: Entries, plan: Result<Path>)
    ensures Reports(plan, e, AddEffect(e, plan))
    ensures AddEffect(e, plan).result.Failure? ==> AddEffect(e, plan).entries == e
  {
    if plan.Success? {
      assert AddEffect(e, plan).result == if CanCreate(e, plan.value) then Success(()) else Failure(OperationFailed);
    }
  }

  /** `rm` reports by the two-outcome rule, and a failure leaves the table
      as it was. */
  lemma RmFailures(e: Entries, plan: Result<Path>)
    ensures Reports(plan, e, RmEffect(e, plan))
    ensures RmEffect(e, plan).result.Failure? ==> RmEffect(e, plan).entries == e
  {
    if plan.Success? {
      assert RmEffect(e, plan).result == if IsFile(e, plan.value) then Success(()) else Failure(OperationFailed);
    }
  }

  /** `rn` reports by the two-outcome rule, and a failure leaves the table
      as it was. */
  lemma RnFailures(e: Entries, plan: Result<(Path, Path)>)
    ensures Reports(plan, e, RnEffect(e, plan))
    ensures RnEffect(e, plan).result.Failure? ==> RnEffect(e, plan).entries == e
  {
    if plan.Success? {
      var (src, dst) := plan.value;
      assert RnEffect(e, plan).result == if CanRename(e, src, dst) then Success(()) else Failure(OperationFailed);
    }
  }

  /** `cp` and `mv` report by the two-outcome rule, and onto an existing
      target they fail with `Operation failed` and change nothing. */
  lemma CopyFailures(e: Entries, plan: Result<(Path, Path)>, t: Transfer)
    ensures Reports(plan, e, CpEffect(e, plan, t))
    ensures Reports(plan, e, MvEffect(e, plan, t))
    ensures plan.Success? && plan.value.1 in e ==>
      && CpEffect(e, plan, t) == Outcome(Failure(OperationFailed), e)
      && MvEffect(e, plan, t) == Outcome(Failure(OperationFailed), e)
  {
    if plan.Success? {
      assert CpEffect(e, plan, t).result.Failure? ==> CpEffect(e, plan, t).result.error == OperationFailed;
    }
  }

  // ---- the commands keep the table well formed ---------------------------

  lemma AddPreservesWellFormed(e: Entries, plan: Result<Path>)
    requires WellFormed(e) && (plan.Success? ==> ValidPath(plan.value))
    ensures WellFormed(AddEffect(e, plan).entries)
  {
    if plan.Success? && CanCreate(e, plan.value) {
      CreatePreserves(e, plan.value);
    }
  }

  lemma RnPreservesWellFormed(e: Entries, plan: Result<(Path, Path)>)
    requires WellFormed(e) && (plan.Success? ==> ValidPath(plan.value.1))
    ensures WellFormed(RnEffect(e, plan).entries)
  {
    if plan.Success? && CanRename(e, plan.value.0, plan.value.1) {
      RenamePreserves(e, plan.value.0, plan.value.1);
    }
  }

  /** Creating the target and writing the copy into it. */
  lemma CopyPreserves(e: Entries, dst: Path, data: seq<byte>)
    requires WellFormed(e) && CanCreate(e, dst) && ValidPath(dst)
    ensures WellFormed(e[dst := File(data)])
  {
    CreatePreserves(e, dst);
    WritePreserves(e[dst := File([])], dst, data);
    assert e[dst := File([])][dst := File(data)] == e[dst := File(data)];
  }

  lemma CpPreservesWellFormed(e: Entries, plan: Result<(Path, Path)>, t: Transfer)
    requires WellFormed(e) && (plan.Success? ==> ValidPath(plan.value.1))
    ensures WellFormed(CpEffect(e, plan, t).entries)
  {
    if plan.Success? {
      var (src, dst) := plan.value;
      if IsFile(e, src) && CanCreate(e, dst) {
        CopyPreserves(e, dst, Copied(e[src].data, t));
      }
    }
  }

  lemma MvPreservesWellFormed(e: Entries, plan: Result<(Path, Path)>, t: Transfer)
    requires WellFormed(e) && (plan.Success? ==> ValidPath(plan.value.1))
    ensures WellFormed(MvEffect(e, plan, t).entries)
  {
    if plan.Success? {
      var (src, dst) := plan.value;
      if IsFile(e, src) && CanCreate(e, dst) {
        var copied := e[dst := File(Copied(e[src].data, t))];
        CopyPreserves(e, dst, Copied(e[src].data, t));
        RemovePreserves(copied, src);
      }
    }
  }

  lemma RmPreservesWellFormed(e: Entries, plan: Result<Path>)
    requires WellFormed(e)
    ensures WellFormed(RmEffect(e, plan).entries)
  {
    if plan.Success? && IsFile(e, plan.value) {
      RemovePreserves(e, plan.value);
    }
  }
}
