# nodejs-file-manager, modelled in Dafny

A model of the command-handling core of a small interactive file manager.
The user types lines such as `cd ../docs`, `cp notes.txt d:/backup` or
`os --EOL`. The program cuts each line into a command name and an argument
string and selects the handler registered under that name. Each handler
checks its argument and works out absolute paths. It then acts on the file
system or on the working directory.

The model covers:
- **Dispatch** (`Dispatch`): the cut of a line at its first space, and the
  exact lookup in the handler registry. With no space, the handler gets the
  whole line. With a leading space, the name is the whole line.
- **Argument tokenising** (`Util.SplitParams`): split on single spaces, trim
  each piece, drop empty pieces.
- **Start-up flags** (`Args`): the fold of `--key=value` strings into a
  dictionary.
- **The working-directory cell** (`Workdir.Cell`), initially the home
  directory.
- **Paths** (`Paths`): Windows-style text paths (`c:/a`, `..\b`, `d:`) and the
  absolute, normalised path (`Path`: drive and segments) they resolve to. This
  stands for `path.resolve`, `path.join`, `path.dirname` and `path.basename`.
- **The file system** (`FileSystem.FileTable`): a class holding a
  `map<Path, Entry>`. Its methods model the primitives the handlers call:
  open for reading, exclusive create (`'wx'`), write, remove, rename and
  `readdir`. Each failing primitive reports an operating-system error.
- **File commands** (`BasicOps`): `cat`, `add`, `rn`, `cp`, `mv` and `rm`.
  Each is written in two layers:
  - a *plan*: the argument check and the path computation, a pure function
    of the argument and the working directory;
  - an *effect*: the chain of primitives applied to the table, a function
    of the table and the plan.

  Each handler method is proved to produce exactly its effect of its plan.
  The properties come as lemmas:
  - the rejection rules;
  - the bare-name rule;
  - the `cp`/`mv` destination rule;
  - exclusive creation;
  - `mv` removing its source only after a complete copy;
  - the two-outcome rule: a rejected argument is `Invalid input` and changes
    nothing, and anything the file system refuses is `Operation failed`;
  - the table staying well formed.
- **Navigation** (`Navigation`):
  - `cd`: its blank check and its root-designator rule (`cd d:` means
    `d:\`);
  - `up`, which is `cd('..')`;
  - `ls`: reads the directory and sorts the entries in place in an array,
    directories first and then by name. It then builds the `Name`/`Type`
    table.
- **OS info** (`OsInfo`): the closed five-key subcommand table.

Byte streams are not modelled. Whether a copy or `cat` stream ran to the end
is an input, `Transfer`: `Complete`, or `Interrupted(n)` after `n` bytes.
The host facts the `os` handlers print are left out.

## Model

| member | source | states |
|---|---|---|
| `Util.SplitParams` | src/util.js:6-8 | every token is non-empty, contains no space and has no whitespace at either end |
| `Util.TrimAll` | src/util.js:7 | the pieces are trimmed one by one, keeping their number and order |
| `Util.KeepNonEmpty` | src/util.js:8 | only non-empty pieces of the input survive the filter |
| `Util.SplitParamsNoSpace` | src/util.js:6-8 | text without a space is at most one token, itself trimmed |
| `Util.SplitParamsConcat` | src/util.js:6-8 | tokens keep their order: the tokens of `a + " " + b` are those of `a` followed by those of `b` |
| `Util.SplitParamsBlank` | src/util.js:6-8 | text made only of whitespace yields no token, so leading, trailing or repeated spaces give no empty token |
| `Util.SplitParamsJoin` | src/util.js:6-8 | round trip: tokenising the single-space join of a list of tokens gives that list back |
| `Util.SplitParamsIdempotent` | src/util.js:6-8 | re-tokenising the joined tokens of any input gives the same tokens |
| `Strings.Trim` | src/util.js:7 | `trim()` leaves no whitespace at either end and leaves trimmed text unchanged |
| `Strings.TrimBlank` | src/basic-ops.js:21-24 | trimming gives the empty string exactly when the text is all whitespace |
| `Strings.SplitJoin` | src/util.js:6 | `split` of a join over a separator-free list of pieces gives the pieces back |
| `Strings.JoinSplit` | src/util.js:6 | joining the pieces of a `split` with the separator gives the text back |
| `Results.Message` | src/basic-ops.js:23-35 | the texts the user sees: `Invalid input`, `Operation failed`, and `unknown command '<name>'` for a name the dispatcher does not know |
| `Dispatch.SplitLine` | src/commands.js:7-15 | the name is the text before the first space when that space is not at the start, and the whole line otherwise; the argument string is the text after the first space, or the whole line when there is no space |
| `Dispatch.SplitLineEdges` | src/commands.js:7-15 | with no space the name and the argument string are both the whole line; with a leading space the name is the whole line and the argument string is the line after that space |
| `Dispatch.SplitLineAtFirstSpace` | src/commands.js:7-15 | when the first space is at k > 0, the name is the non-empty, space-free text before it and the line is `name + " " + params` |
| `Dispatch.SplitLineWordThenArgs` | src/commands.js:7-15 | a space-free name, one space, then any text: the handler receives that text untrimmed and unchanged |
| `Dispatch.Commands.constructor` | src/commands.js:2-4 | the registry is stored as given |
| `Dispatch.Commands.Do` | src/commands.js:6-17 | an unregistered name fails with `unknown command '<name>'` and selects nothing; a registered name selects exactly the handler stored under that very name, case-sensitive and untrimmed, with the raw argument string; the registry is fixed once the dispatcher is built |
| `Args.Key` | src/args.js:6-7 | the key of a flag: the text between its leading `--` and its first `=` |
| `Args.Value` | src/args.js:6-7 | the value of a flag: the text between its first `=` and its second `=`, or the end |
| `Args.AddArg` | src/args.js:5-9 | one step of the reduction: an element that starts with `--` and contains `=` sets its key to its value, replacing an earlier value; any other element leaves the dictionary as it was |
| `Args.Fold` | src/args.js:4-10 | the reference the loop is proved equal to: the steps applied to the elements from first to last, starting from the empty dictionary |
| `Args.ParseArgs` | src/args.js:3-11 | the reduce loop over the array yields exactly the left fold; an empty list yields the empty map |
| `Args.FirstEqualsAfterDashes` | src/args.js:5-7 | in a contributing element the first `=` comes after the leading `--` |
| `Args.FoldKeys` | src/args.js:4-9 | a key is present exactly when some element that starts with `--` and contains `=` carries it; every other element is ignored |
| `Args.FoldLastWins` | src/args.js:4-9 | the value under a key is that of the last contributing element carrying that key |
| `Args.KeyValueShape` | src/args.js:6-7 | the key is the text between `--` and the first `=`, the value the text between the first and the second `=` (or the end), and neither contains `=` |
| `Args.KeyValueOf` | src/args.js:5-7 | `--k=v` followed by nothing or by `=...` gives key `k` and value `v` |
| `Args.FoldOne` | src/args.js:3-11 | a single such flag yields the one-entry dictionary `{k: v}` |
| `Args.ParseEdgeCases` | src/args.js:6-7 | `--a=b=c` gives `a → "b"`, `--name=` stores the empty value under `name`, and `--=v` stores `v` under the empty key |
| `Workdir.Cell.constructor` | src/workdir.js:3 | the working directory starts as the home directory |
| `Workdir.Cell.Get` | src/workdir.js:5-7 | returns the stored directory and changes nothing |
| `Workdir.Cell.Set` | src/workdir.js:9-11 | stores its argument as it is, without any check |
| `Paths.Resolve` | src/basic-ops.js:26 | resolution against the working directory: a drive, then a separator, starts at that drive's root; a bare drive is relative to the working directory on the working drive, and to that drive's root otherwise; a leading separator starts at the working drive's root; anything else starts at the working directory. The pieces between `/` or `\` are then applied in order: empty pieces and `.` stay, `..` goes up but never above a root, and any other piece descends |
| `Paths.Format` | src/basic-ops.js:88 | the text a resolved path prints as: the drive, `:\`, then the segments joined by `\` |
| `Paths.JoinStr` | src/basic-ops.js:56 | joining one entry name onto a path text with `\`; an empty name leaves the text as it is |
| `Paths.Basename` | src/basic-ops.js:52 | the name a path text ends with: a drive designator is dropped first, then trailing separators, and the text after the last remaining separator is the name |
| `Paths.Parent` | src/basic-ops.js:86 | `dirname` keeps the drive, removes the last segment, keeps a path valid, and maps a root to itself |
| `Paths.ResolveValid` | src/basic-ops.js:26 | resolving any text against a valid directory gives a valid, normalised absolute path |
| `Paths.ResolveFormat` | src/basic-ops.js:88 | resolving the printed form of a normalised path gives that path back |
| `Paths.ResolveBare` | src/basic-ops.js:26 | a plain name resolves to one step from the working directory |
| `Paths.ResolveJoin` | src/basic-ops.js:124 | joining a separator-free name onto a directory text and resolving is one step from that directory |
| `Paths.ResolveJoinBareDrive` | src/basic-ops.js:124 | joining a name onto a bare drive `d:` and resolving steps from the root of that drive |
| `Paths.BasenameBare` | src/basic-ops.js:52 | `basename(s) === s` holds exactly for a name with no separator and no drive designator |
| `Paths.BasenameFormat` | src/basic-ops.js:123 | the basename of the printed form of an absolute path is its last segment |
| `FileSystem.FileTable.constructor` | src/basic-ops.js:5 | the file system starts with the given entries |
| `FileSystem.FileTable.Read` | src/basic-ops.js:29 | opening for reading succeeds exactly on a file and yields its whole content; otherwise an operating-system error |
| `FileSystem.FileTable.Create` | src/basic-ops.js:59 | `open(p, 'wx')` succeeds exactly when nothing is at `p` and its parent is a directory, and then adds an empty file; otherwise nothing changes |
| `FileSystem.FileTable.Write` | src/basic-ops.js:135-138 | writing through a handle on a file replaces its content; nothing else changes |
| `FileSystem.FileTable.Remove` | src/basic-ops.js:231 | `rm(p)` removes a file and only a file; otherwise nothing changes |
| `FileSystem.FileTable.Rename` | src/basic-ops.js:94 | `rename` moves a file to a target that is not a directory and sits in a directory, replacing a file there; otherwise it reports an operating-system error and nothing changes |
| `FileSystem.FileTable.ReadDir` | src/navigation.js:56 | `readdir` of a directory lists each of its entries exactly once with its name and kind; any other path is an operating-system error |
| `FileSystem.DescribeChild` | src/navigation.js:56 | each entry of a directory is named by its last segment and described with its kind |
| `FileSystem.CreatePreserves` | src/basic-ops.js:59 | exclusive creation keeps every entry inside a directory |
| `FileSystem.WritePreserves` | src/basic-ops.js:135-138 | writing a file keeps the table well formed |
| `FileSystem.RemovePreserves` | src/basic-ops.js:231 | removing a file strands no entry, because a file contains nothing |
| `FileSystem.RenamePreserves` | src/basic-ops.js:94 | renaming a file keeps every entry inside a directory |
| `BasicOps.Copied` | src/basic-ops.js:135-138 | a complete stream leaves all the source bytes in the target; an interrupted one leaves exactly as many as were written |
| `BasicOps.CopiedPrefix` | src/basic-ops.js:135-138 | what the target holds is always a prefix of the source |
| `BasicOps.BareName` | src/basic-ops.js:52 | the name check of `add` and `rn`: a non-empty name that is its own basename |
| `BasicOps.RnTarget` | src/basic-ops.js:86-87 | the text of the new path of `rn`: the new name joined onto the directory of the source, normalised |
| `BasicOps.CopyTarget` | src/basic-ops.js:122-124 | the target of `cp` and `mv`: the basename of the source joined onto the destination text, resolved against the working directory |
| `BasicOps.TargetOf` | src/basic-ops.js:21-26 | `cat` and `rm` reject only with `Invalid input` |
| `BasicOps.TargetOfRule` | src/basic-ops.js:21-26 | `cat` and `rm` reject exactly a blank argument, before any file access; otherwise they act on the trimmed argument resolved against the working directory |
| `BasicOps.TargetOfValid` | src/basic-ops.js:26 | the resolved path is valid |
| `BasicOps.BareNameRule` | src/basic-ops.js:52 | a non-empty name passes the basename check exactly when it has no separator and no drive designator |
| `BasicOps.PlanAdd` | src/basic-ops.js:51-56 | `add` rejects only with `Invalid input` |
| `BasicOps.PlanAddRule` | src/basic-ops.js:51-56 | `add` accepts exactly a bare trimmed name, and then targets `workdir/name`, one step from the working directory |
| `BasicOps.PlanAddValid` | src/basic-ops.js:56 | the target of `add` is a valid path |
| `BasicOps.JoinOntoFormat` | src/basic-ops.js:56 | `resolve(join(dir, name))` on a directory's text is one step from that directory |
| `BasicOps.PlanRn` | src/basic-ops.js:77-91 | `rn` rejects only with `Invalid input` |
| `BasicOps.RnCheck` | src/basic-ops.js:85-91 | the resolve check of `rn` rejects only with `Invalid input` |
| `BasicOps.PlanRnRule` | src/basic-ops.js:77-91 | `rn` rejects exactly a missing token or a new name that is not bare, so its resolve check never fires; the new path is the new name inside the old file's directory |
| `BasicOps.RnCheckPasses` | src/basic-ops.js:85-91 | for a bare name `join(dirname(src), name)` is already resolved text, naming `name` beside the source |
| `BasicOps.PlanRnValid` | src/basic-ops.js:85-87 | both paths of `rn` are valid |
| `BasicOps.RnCheckValid` | src/basic-ops.js:87 | the new path of `rn` is valid |
| `BasicOps.PlanCopy` | src/basic-ops.js:114-124 | `cp` and `mv` reject only with `Invalid input` |
| `BasicOps.CopyTargetRule` | src/basic-ops.js:122-124 | the target is the destination directory with the source's basename appended (the drive root for a bare `d:`) |
| `BasicOps.PlanCopyRule` | src/basic-ops.js:114-124 | `cp` and `mv` reject exactly fewer than two tokens and ignore any further tokens; the source is the first token resolved, and the target is the source's name inside the directory the second token names, or inside the drive root for a bare `d:` |
| `BasicOps.PlanCopyValid` | src/basic-ops.js:122-124 | both paths of `cp` and `mv` are valid |
| `BasicOps.CatEffect` | src/basic-ops.js:29-36 | `cat` yields the file's bytes exactly when the path is a file and the stream completes; any other failure is `Operation failed`, and a rejected argument keeps its error |
| `BasicOps.AddEffect` | src/basic-ops.js:59-63 | a rejected argument keeps its error and changes nothing; an exclusive create succeeds with a new empty file when the target is absent and its parent is a directory; otherwise `Operation failed`, with the table unchanged |
| `BasicOps.RnEffect` | src/basic-ops.js:94-97 | a rejected argument keeps its error and changes nothing; a possible rename moves the file and succeeds; otherwise `Operation failed`, with the table unchanged |
| `BasicOps.CpEffect` | src/basic-ops.js:128-146 | a rejected argument keeps its error; a source that is not a file, or a target that cannot be created, is `Operation failed` with the table unchanged; otherwise the target is created and receives the streamed bytes, and the command succeeds only if the stream completes |
| `BasicOps.MvEffect` | src/basic-ops.js:177-205 | the copy of `cp`; once it succeeds the source is removed and the command succeeds; any failure of the copy is reported as it is, and the source stays |
| `BasicOps.RmEffect` | src/basic-ops.js:231-234 | a rejected argument keeps its error and changes nothing; a file is removed and the command succeeds; anything else is `Operation failed`, with the table unchanged |
| `BasicOps.Cat` | src/basic-ops.js:19-39 | the handler yields the effect of its plan on the table and changes nothing |
| `BasicOps.RunCat` | src/basic-ops.js:29-36 | the open-and-stream chain yields the effect of `cat` on the table |
| `BasicOps.Add` | src/basic-ops.js:49-66 | the handler leaves the result and the table that the effect of its plan gives |
| `BasicOps.RunAdd` | src/basic-ops.js:59-63 | the exclusive open yields the effect of `add` |
| `BasicOps.AddNeverOverwrites` | src/basic-ops.js:59-63 | `add` succeeds exactly when the target can be created, then holds an empty file there, and never changes an existing entry; an existing target fails with `Operation failed` and leaves the table as it was |
| `BasicOps.AddDotsFail` | src/basic-ops.js:51-63 | `add .` and `add ..` pass the argument check but always fail with `Operation failed`, leaving the table as it was |
| `BasicOps.Rn` | src/basic-ops.js:76-100 | the handler leaves the result and the table that the effect of its plan gives |
| `BasicOps.RunRn` | src/basic-ops.js:94-97 | the rename yields the effect of `rn` |
| `BasicOps.RnRule` | src/basic-ops.js:94-97 | `rn` succeeds exactly when the rename is possible, changes nothing on failure, and touches no entry but the two named |
| `BasicOps.Cp` | src/basic-ops.js:113-149 | the handler leaves the result and the table that the effect of its plan gives |
| `BasicOps.Mv` | src/basic-ops.js:162-208 | the handler leaves the result and the table that the effect of its plan gives |
| `BasicOps.RunCopy` | src/basic-ops.js:176-205 | the chain of read handle, exclusive write handle and stream, and for `mv` the final `rm`, yields the effect of `cp` or `mv` |
| `BasicOps.CpNeverOverwrites` | src/basic-ops.js:128-131 | `cp` never changes an existing entry, whatever happens; an existing target, even one holding the same bytes, fails with `Operation failed` before anything is written |
| `BasicOps.CpCopiesContent` | src/basic-ops.js:128-139 | a successful `cp` adds exactly one new file at the target, holding the source's bytes |
| `BasicOps.CpInterrupted` | src/basic-ops.js:135-146 | an interrupted copy that changed the table has created the target: it fails with `Operation failed` and leaves in the new target the bytes written so far, a prefix of the source |
| `BasicOps.MvRemovesSourceOnlyAfterCopy` | src/basic-ops.js:177-199 | `mv` succeeds exactly when its source is gone, only after a complete copy; on failure every existing entry, the source included, is unchanged |
| `BasicOps.MvMovesContent` | src/basic-ops.js:177-199 | after a successful `mv` the target holds the source's bytes and the source is gone |
| `BasicOps.Rm` | src/basic-ops.js:221-237 | the handler leaves the result and the table that the effect of its plan gives |
| `BasicOps.RunRm` | src/basic-ops.js:231-234 | the removal yields the effect of `rm` |
| `BasicOps.RmRule` | src/basic-ops.js:231-234 | `rm` succeeds exactly on a file, removes that file and nothing else, and changes nothing on failure |
| `BasicOps.AddFailures` | src/basic-ops.js:59-63 | a rejected `add` keeps the argument's error and changes nothing; a refused create is `Operation failed` and also changes nothing |
| `BasicOps.RnFailures` | src/basic-ops.js:94-97 | a rejected `rn` keeps the argument's error and changes nothing; a refused rename is `Operation failed` and also changes nothing |
| `BasicOps.CopyFailures` | src/basic-ops.js:128-205 | a rejected `cp` or `mv` keeps the argument's error and changes nothing; any later failure is `Operation failed`; an existing target fails with `Operation failed` and leaves the table as it was |
| `BasicOps.RmFailures` | src/basic-ops.js:231-234 | a rejected `rm` keeps the argument's error and changes nothing; a refused removal is `Operation failed` and also changes nothing |
| `BasicOps.AddPreservesWellFormed` | src/basic-ops.js:59 | `add` keeps every entry inside a directory |
| `BasicOps.RnPreservesWellFormed` | src/basic-ops.js:94 | `rn` keeps every entry inside a directory |
| `BasicOps.CopyPreserves` | src/basic-ops.js:131-138 | creating the target and writing into it keeps the table well formed |
| `BasicOps.CpPreservesWellFormed` | src/basic-ops.js:128-139 | `cp`, complete or interrupted, keeps the table well formed |
| `BasicOps.MvPreservesWellFormed` | src/basic-ops.js:177-199 | `mv` keeps the table well formed |
| `BasicOps.RmPreservesWellFormed` | src/basic-ops.js:231 | `rm` keeps the table well formed |
| `Navigation.IsRootDesignator` | src/navigation.js:32-33 | the texts the parse test takes for a bare root: a drive designator followed by nothing or only by separators (`d:`, `d:/`, `d:\`, `d://`), or a non-empty run of separators alone (`/`, `\`, `//`) |
| `Navigation.CdPlan` | src/navigation.js:23-39 | `cd` rejects only with `Invalid input` |
| `Navigation.CdTargetRule` | src/navigation.js:25-39 | `cd` rejects exactly an empty or all-whitespace argument; a root designator enters the root of its drive; any other argument is resolved untrimmed against the working directory |
| `Navigation.RootJoin` | src/navigation.js:33-36 | `join(p, './')` of a root designator resolves to that root |
| `Navigation.CdLongRoots` | src/navigation.js:32-36 | `d://` enters the root of `d`, and `//` the root of the working drive |
| `Navigation.CdRootRuleMatters` | src/navigation.js:32-39 | the root-designator rule changes the outcome exactly for the bare working drive `d:` away from its root |
| `Navigation.CdEffect` | src/navigation.js:41-45 | the change of directory: a rejected argument keeps its error and the directory stays; a directory is entered; anything else is `Operation failed`, and the directory stays |
| `Navigation.Cd` | src/navigation.js:23-46 | the working directory becomes the planned directory when it is a directory; otherwise the result is the error and the directory is unchanged |
| `Navigation.RunCd` | src/navigation.js:41-45 | the change of directory yields the effect of `cd` |
| `Navigation.CdEffectRule` | src/navigation.js:41-45 | a change succeeds exactly onto a directory; a blank argument keeps `Invalid input`, a refused change is `Operation failed`, and either leaves the directory as it was |
| `Navigation.CdKeepsDirectory` | src/navigation.js:29-45 | starting from a valid directory, the working directory is still a valid directory after any `cd` |
| `Navigation.Up` | src/navigation.js:11 | `up` is exactly `cd('..')` |
| `Navigation.UpPlan` | src/navigation.js:11 | `up` enters the parent of the working directory |
| `Navigation.UpAtRoot` | src/navigation.js:5-11 | at a root `up` leaves the working directory where it is |
| `Navigation.NameCompare` | src/navigation.js:62 | name comparison returns a negative, zero or positive sign |
| `Navigation.NameCompareEqual` | src/navigation.js:62 | names compare equal exactly when they are equal |
| `Navigation.NameCompareFlip` | src/navigation.js:62 | swapping two names flips the sign |
| `Navigation.NameCompareTrans` | src/navigation.js:62 | name order is transitive |
| `Navigation.CompareAsWritten` | src/navigation.js:60-68 | the comparator as written: directories before files, but within one kind the name of the first entry is compared with the text `[object Object]`, whatever the second entry is |
| `Navigation.Compare` | src/navigation.js:60-68 | the intended comparator: directories before files, then by name |
| `Navigation.AsWrittenInconsistent` | src/navigation.js:62 | with the comparator as written, the files `a` and `b` each sort after the other |
| `Navigation.CompareFlip` | src/navigation.js:60-68 | the intended comparator is antisymmetric, and only identical entries compare equal |
| `Navigation.CompareTrans` | src/navigation.js:60-68 | the intended comparator is transitive |
| `Navigation.SortedDirectoriesFirst` | src/navigation.js:59-68 | in sorted order every directory precedes every file, and entries of one kind are in name order |
| `Navigation.SortEntries` | src/navigation.js:60-68 | the in-place sort leaves the array sorted and a permutation of what it held |
| `Navigation.SortListing` | src/navigation.js:56-68 | the entries read are returned sorted and permuted |
| `Navigation.PermutedListing` | src/navigation.js:56-68 | any reordering of a directory listing still lists each entry exactly once |
| `Navigation.ToRows` | src/navigation.js:71-74 | one row per entry, each of kind `directory` or `file` |
| `Navigation.FromRows` | src/navigation.js:71-74 | reading a table back gives one entry per row |
| `Navigation.RowsRoundTrip` | src/navigation.js:71-74 | the table loses nothing: reading it back gives the entries, with their names, kinds and order |
| `Navigation.Ls` | src/navigation.js:55-81 | `ls` succeeds exactly on a directory; its table lists every entry of the working directory exactly once, with its name and kind, directories first and then in name order; a `readdir` failure passes through unwrapped |
| `OsInfo.Info` | src/os-info.js:24-31 | `info` fails with `Invalid input`, running no query, exactly when the parameter is not a key of the table |
| `OsInfo.InfoAccepts` | src/os-info.js:3-9 | exactly the five keys `--EOL`, `--cpus`, `--homedir`, `--username` and `--architecture` are accepted |
| `OsInfo.InfoFlag` | src/os-info.js:3-30 | each key selects its own query |
| `OsInfo.InfoExact` | src/os-info.js:25-30 | an accepted parameter is the key of the query it selects, so no two parameters select the same query |
| `OsInfo.InfoNoFolding` | src/os-info.js:25 | matching is exact: ` --EOL`, `--eol` and `--EOL ` are rejected |

## Left out

- `src/index.js` is not part of this model: the readline loop, console output and `process.exit`. `src/ctrl-c.js` (signal handlers) is not part of it either.
- `src/hash.js` and `src/brzip.js` are not part of this model. They compute SHA-256 and Brotli streams through `node:crypto` and `zlib`. Their only local logic is the same trim check as `cat` and the same two-token check as `cp`.
- Byte streams, file handles and their closing are left out. Whether a stream ran to the end is the `Transfer` input. The bytes `cat` streams to the console before a failure are not modelled; the model's `cat` only returns the bytes when the stream completes.
- Console output (`console.table`, `console.log`) and the values the `os` queries report are left out. That includes the floating-point `clock_GHz`. `OsInfo.Info` selects the query that would run.
- Dispatch.Commands.Do: returns the selected handler and its argument string instead of calling it. Handlers are opaque values here, so selecting the registered one stands for "exactly that handler runs, once, and its result is passed on".
- Plain-object lookups find inherited names (`toString`, `constructor`) in the command registry and in the `os` table. `parseArgs` gives `__proto__` special treatment. Both registries are modelled as maps of their own entries only.
- Paths follow the Windows form the program's own examples use: a drive letter, `:`, and `/` or `\`. Not modelled:
  - UNC paths, POSIX paths, and case-insensitive matching of drive letters and names;
  - the per-drive working directory of Windows: a bare `d:` on another drive goes to the root of `d:`.
- `pathToAbsolute` and `lazyCopy` are imported from `src/util.js`, but the file's text defines only `splitParams`. Their definitions are not part of this model. `pathToAbsolute` is modelled as resolution against the working directory (`Paths.Resolve`). `lazyCopy` is modelled as a stream that either completes or stops after some bytes (`Transfer`).
- `path.parse` is modelled only as far as `cd` needs it: whether the text names a bare root (a drive designator followed only by separators, or a run of separators alone). Its other fields are not modelled.
- `localeCompare` depends on the locale. It is modelled as code-point order (`Navigation.NameCompare`).
- `cd` and `ls` use `process.chdir` and `process.cwd()`, while the file commands use `getWorkdir()`. The model unifies all of them on the one working-directory cell, which holds a resolved `Path` rather than raw text.
- FileSystem.FileTable.Rename: with a directory as the source, `rn` fails in the model with `Operation failed` and leaves the table as it was. The source's `fs.rename` renames the directory, with everything in it. Moving a subtree of the table is not modelled.
- `cp` and `mv` with a directory as the source fail without touching the table. On platforms where opening a directory for reading succeeds, the source would first leave an empty target behind.
- `ls` passes an operating-system error from `readdir` through unwrapped. The model keeps that error as `SystemError` and does not model its text.
- Promises run one at a time. The interleaving of concurrent commands is not modelled.

## Findings

| source | as written | input that shows it | evidently intended | confidence | as-written member | corrected member |
|---|---|---|---|---|---|---|
| src/navigation.js:62 | `a.name.localeCompare(b)` passes the entry object `b`, so the name of `a` is compared with the text `[object Object]`. The result does not depend on `b`, and the comparator is inconsistent. | two files named `a` and `b`: comparing `a` with `b` gives a positive sign, and so does comparing `b` with `a` | `a.name.localeCompare(b.name)`: directories first, then by name | not executed | `Navigation.CompareAsWritten` (shown by `Navigation.AsWrittenInconsistent`) | `Navigation.Compare` (consistent by `Navigation.CompareFlip` and `Navigation.CompareTrans`; used by `Navigation.SortEntries`) |
