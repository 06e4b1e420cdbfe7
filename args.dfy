/** `parseArgs`: folds the start-up flags `--key=value` into a dictionary. */
module Args {
  import opened Strings

  /** Only an element that starts with `--` and contains `=` is read. */
  predicate Contributes(cur: string) {
    StartsWith(cur, "--") && '=' in cur
  }

  /** The first `=` of a contributing element comes after its leading `--`. */
  lemma FirstEqualsAfterDashes(cur: string)
    requires Contributes(cur)
    ensures IndexOf(cur, '=') >= 2
  {
    assert cur[0] == '-' && cur[1] == '-' by { assert cur[..2] == "--"; }
  }

  /** The key: the text before the first `=`, without its leading `--`. */
  function Key(cur: string): string
    requires Contributes(cur)
  {
    FirstEqualsAfterDashes(cur);
    SplitFirst(cur, '=');
    Split(cur, '=')[0][2..]
  }

  /** The value: the piece between the first `=` and the next one (or the
      end). */
  function Value(cur: string): string
    requires Contributes(cur)
  {
    SplitFirst(cur, '=');
    Split(cur, '=')[1]
  }

  /** The key is the text between the leading `--` and the first `=`; the
      value is the text between the first `=` and the second `=` (or the end);
      whatever follows a second `=` is dropped. */
  lemma KeyValueShape(cur: string)
    requires Contributes(cur)
    ensures '=' !in Key(cur) && '=' !in Value(cur)
    ensures var n := |"--" + Key(cur) + "=" + Value(cur)|;
      && StartsWith(cur, "--" + Key(cur) + "=" + Value(cur))
      && (n == |cur| || cur[n] == '=')
  {
    var k := IndexOf(cur, '=');
    KeyIsHead(cur);
    SplitFirst(cur, '=');
    var rest := cur[k + 1..];
    assert Value(cur) == Split(rest, '=')[0];
    FirstPiece(rest, '=');
    assert cur == cur[..k] + "=" + rest;
    PrefixAfter(cur, cur[..k], rest, Value(cur));
  }

  /** The text before the first `=` is `--` followed by the key, which holds
      no `=`. */
  lemma KeyIsHead(cur: string)
    requires Contributes(cur)
    ensures var k := IndexOf(cur, '=');
      cur[..k] == "--" + Key(cur) && '=' !in Key(cur)
  {
    var k := IndexOf(cur, '=');
    FirstEqualsAfterDashes(cur);
    SplitFirst(cur, '=');
    var head := cur[..k];
    assert Key(cur) == head[2..];
    assert cur[..2] == "--";
    assert head == head[..2] + head[2..];
    assert forall c :: c in Key(cur) ==> c in head;
  }

  /** A prefix `p` of `rest`, ended by `=` or by the end, extends the prefix
      `head + "="` of `s == head + "=" + rest`. */
  lemma PrefixAfter(s: string, head: string, rest: string, p: string)
    requires s == head + "=" + rest
    requires StartsWith(rest, p) && (|p| == |rest| || rest[|p|] == '=')
    ensures var n := |head + "=" + p|;
      StartsWith(s, head + "=" + p) && (n == |s| || s[n] == '=')
  {
    var n := |head + "=" + p|;
    assert s[..n] == head + "=" + rest[..|p|];
    if n < |s| {
      assert s[n] == rest[|p|];
    }
  }

  /** The reduction step: a contributing element sets its key to its value,
      overwriting an earlier one; any other element is ignored. */
  function AddArg(acc: map<string, string>, cur: string): map<string, string> {
    if Contributes(cur) then acc[Key(cur) := Value(cur)] else acc
  }

  /** The reference fold: the elements applied left to right with `AddArg`,
      starting from the empty dictionary. */
  function Fold(args: seq<string>): map<string, string> {
    if args == [] then map[] else AddArg(Fold(args[..|args| - 1]), args[|args| - 1])
  }

  /** `parseArgs(args)`: walks the array once, updating the accumulator in
      place, and yields exactly the fold. */
  method ParseArgs(args: seq<string>) returns (acc: map<string, string>)
    ensures acc == Fold(args)
    ensures args == [] ==> acc == map[]
  {
    acc := map[];
    for i := 0 to |args|
      invariant acc == Fold(args[..i])
    {
      var cur := args[i];
      if StartsWith(cur, "--") && '=' in cur {
        FirstEqualsAfterDashes(cur);
        SplitFirst(cur, '=');
        var parts := Split(cur, '=');
        acc := acc[parts[0][2..] := parts[1]];
      }
      assert args[..i + 1][..i] == args[..i];
    }
    assert args[..|args|] == args;
  }

  /** Element `i` of `args` sets `key`. */
  predicate Carries(args: seq<string>, i: int, key: string) {
    0 <= i < |args| && Contributes(args[i]) && Key(args[i]) == key
  }

  /** A key is present exactly when some contributing element carries it. */
  lemma {:induction false} FoldKeys(args: seq<string>, key: string)
    ensures key in Fold(args) <==> exists i :: Carries(args, i, key)
  {
    if args != [] {
      var n := |args| - 1;
      var init := args[..n];
      FoldKeys(init, key);
      assert Fold(args) == AddArg(Fold(init), args[n]);
      if Carries(args, n, key) {
        assert key in Fold(args);
      } else {
        assert key in Fold(args) <==> key in Fold(init);
        if key in Fold(init) {
          var i :| Carries(init, i, key);
          assert args[i] == init[i];
          assert Carries(args, i, key);
        }
        if exists i :: Carries(args, i, key) {
          var i :| Carries(args, i, key);
          assert init[i] == args[i];
          assert Carries(init, i, key);
        }
      }
    }
  }

  /** A later element with the same key wins: the value stored under a key is
      the value of the last contributing element that carries that key. */
  lemma {:induction false} FoldLastWins(args: seq<string>, i: nat)
    requires i < |args| && Contributes(args[i])
    requires forall j :: i < j < |args| && Contributes(args[j]) ==> Key(args[j]) != Key(args[i])
    ensures Key(args[i]) in Fold(args) && Fold(args)[Key(args[i])] == Value(args[i])
  {
    if i < |args| - 1 {
      var init := args[..|args| - 1];
      assert init[i] == args[i];
      forall j | i < j < |init| && Contributes(init[j])
        ensures Key(init[j]) != Key(init[i])
      {
        assert init[j] == args[j];
      }
      FoldLastWins(init, i);
    }
  }

  /** Reading `--k=v` followed by nothing or by a further `=...` gives key `k`
      and value `v`. */
  lemma KeyValueOf(k: string, v: string, rest: string)
    requires '=' !in k && '=' !in v
    requires rest == [] || rest[0] == '='
    ensures Contributes("--" + k + "=" + v + rest)
    ensures Key("--" + k + "=" + v + rest) == k
    ensures Value("--" + k + "=" + v + rest) == v
  {
    var head := "--" + k;
    var cur := head + "=" + (v + rest);
    assert cur == "--" + k + "=" + v + rest;
    assert cur[..2] == "--" && cur[|head|] == '=';
    assert '=' !in head;
    SplitConcat(head, v + rest, '=');
    SplitNoSep(head, '=');
    if rest == [] {
      assert v + rest == v;
      SplitNoSep(v, '=');
    } else {
      assert v + rest == v + "=" + rest[1..];
      SplitConcat(v, rest[1..], '=');
      SplitNoSep(v, '=');
    }
  }

  /** The edges of the split on `=`: `--a=b=c` keeps only the text between
      the first and second `=`, `--name=` stores the empty value, and `--=v`
      stores under the empty key. */
  lemma ParseEdgeCases()
    ensures Fold(["--a=b=c"]) == map["a" := "b"]
    ensures Fold(["--name="]) == map["name" := ""]
    ensures Fold(["--=v"]) == map["" := "v"]
  {
    assert "--a=b=c" == "--" + "a" + "=" + "b" + "=c";
    FoldOne("a", "b", "=c");
    assert "--name=" == "--" + "name" + "=" + "" + "";
    FoldOne("name", "", "");
    assert "--=v" == "--" + "" + "=" + "v" + "";
    FoldOne("", "v", "");
  }

  /** A single flag `--k=v` (possibly followed by `=...`) yields `{k: v}`. */
  lemma FoldOne(k: string, v: string, rest: string)
    requires '=' !in k && '=' !in v
    requires rest == [] || rest[0] == '='
    ensures Fold(["--" + k + "=" + v + rest]) == map[k := v]
  {
    var cur := "--" + k + "=" + v + rest;
    assert [cur][..0] == [];
    KeyValueOf(k, v, rest);
  }
}
