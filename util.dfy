/** `splitParams`: the whitespace tokeniser every multi-argument handler uses. */
module Util {
  import opened Strings

  /** Trims every piece, one by one. */
  function TrimAll(pieces: seq<string>): (r: seq<string>)
    ensures |r| == |pieces|
    ensures forall i :: 0 <= i < |r| ==> r[i] == Trim(pieces[i])
  {
    if pieces == [] then [] else [Trim(pieces[0])] + TrimAll(pieces[1..])
  }

  /** The truthiness filter: keeps the non-empty strings, in order. Every
      survivor is a non-empty piece, and every non-empty piece survives. */
  function KeepNonEmpty(pieces: seq<string>): (r: seq<string>)
    ensures forall t :: t in r ==> t in pieces && t != ""
    ensures forall i :: 0 <= i < |pieces| && pieces[i] != "" ==> pieces[i] in r
    ensures |r| <= |pieces|
  {
    if pieces == [] then []
    else (if pieces[0] == "" then [] else [pieces[0]]) + KeepNonEmpty(pieces[1..])
  }

  /** A token as `splitParams` produces it: non-empty, free of spaces and
      without whitespace at either end. */
  predicate IsToken(t: string) {
    t != "" && ' ' !in t && Trimmed(t)
  }

  /** The trim-then-filter stage applied to the pieces of the split. */
  function Tokens(pieces: seq<string>): seq<string> {
    KeepNonEmpty(TrimAll(pieces))
  }

  /** `splitParams`: split on single spaces, trim each piece and drop the
      empty ones. Every token is non-empty, contains no space and has no
      leading or trailing whitespace. */
  function SplitParams(params: string): (r: seq<string>)
    ensures forall t :: t in r ==> IsToken(t)
  {
    var pieces := Split(params, ' ');
    SplitPiecesFree(params, ' ');
    TokensOfSpacelessPieces(pieces);
    Tokens(pieces)
  }

  lemma TokensOfSpacelessPieces(pieces: seq<string>)
    requires forall i :: 0 <= i < |pieces| ==> ' ' !in pieces[i]
    ensures forall t :: t in Tokens(pieces) ==> IsToken(t)
  {
    forall t | t in Tokens(pieces) ensures IsToken(t) {
      var i :| 0 <= i < |pieces| && t == Trim(pieces[i]);
      TrimChars(pieces[i]);
    }
  }

  lemma TrimAllConcat(a: seq<string>, b: seq<string>)
    ensures TrimAll(a + b) == TrimAll(a) + TrimAll(b)
  {
    var l, r := TrimAll(a + b), TrimAll(a) + TrimAll(b);
    forall i | 0 <= i < |l|
      ensures l[i] == r[i]
    {
      if i < |a| {
        assert (a + b)[i] == a[i];
      } else {
        assert (a + b)[i] == b[i - |a|];
      }
    }
  }

  lemma {:induction false} KeepNonEmptyConcat(a: seq<string>, b: seq<string>)
    ensures KeepNonEmpty(a + b) == KeepNonEmpty(a) + KeepNonEmpty(b)
  {
    if a != [] {
      assert (a + b)[1..] == a[1..] + b;
      KeepNonEmptyConcat(a[1..], b);
    } else {
      assert a + b == b;
    }
  }

  lemma TokensConcat(a: seq<string>, b: seq<string>)
    ensures Tokens(a + b) == Tokens(a) + Tokens(b)
  {
    TrimAllConcat(a, b);
    KeepNonEmptyConcat(TrimAll(a), TrimAll(b));
  }

  /** Only a piece that trims to the empty string is dropped. */
  function KeepTrimmed(s: string): seq<string> {
    if Trim(s) == "" then [] else [Trim(s)]
  }

  lemma TokensSingle(s: string)
    ensures Tokens([s]) == KeepTrimmed(s)
  {
    assert TrimAll([s]) == [Trim(s)];
    assert KeepNonEmpty([Trim(s)]) == KeepTrimmed(s) by {
      assert [Trim(s)][1..] == [];
    }
  }

  /** A string without spaces is at most one token: itself, trimmed. */
  lemma SplitParamsNoSpace(s: string)
    requires ' ' !in s
    ensures SplitParams(s) == KeepTrimmed(s)
  {
    SplitNoSep(s, ' ');
    TokensSingle(s);
  }

  /** Order: tokenising `a + " " + b` gives the tokens of `a` followed by the
      tokens of `b`, so tokens keep the relative order they have in the input. */
  lemma SplitParamsConcat(a: string, b: string)
    ensures SplitParams(a + " " + b) == SplitParams(a) + SplitParams(b)
  {
    SplitConcat(a, b, ' ');
    TokensConcat(Split(a, ' '), Split(b, ' '));
  }

  /** Consecutive, leading or trailing spaces produce no empty token, and a
      string made only of whitespace yields no token at all. */
  lemma {:induction false} SplitParamsBlank(s: string)
    requires forall i :: 0 <= i < |s| ==> IsWhitespace(s[i])
    ensures SplitParams(s) == []
    decreases |s|
  {
    if ' ' !in s {
      SplitParamsNoSpace(s);
      TrimBlank(s);
    } else {
      var k := IndexOf(s, ' ');
      assert s == s[..k] + " " + s[k + 1..];
      SplitParamsConcat(s[..k], s[k + 1..]);
      SplitParamsBlank(s[..k]);
      SplitParamsBlank(s[k + 1..]);
    }
  }

  /** Round trip: tokenising the single-space join of a list of tokens gives
      that list back. */
  lemma {:induction false} SplitParamsJoin(tokens: seq<string>)
    requires forall t :: t in tokens ==> IsToken(t)
    ensures SplitParams(Join(tokens, " ")) == tokens
  {
    if tokens == [] {
      SplitParamsNoSpace("");
    } else if |tokens| == 1 {
      assert tokens[0] in tokens;
      SplitParamsNoSpace(tokens[0]);
    } else {
      var t, rest := tokens[0], tokens[1..];
      assert IsToken(t) by { assert t in tokens; }
      assert forall u :: u in rest ==> IsToken(u) by {
        assert forall u :: u in rest ==> u in tokens;
      }
      calc {
        SplitParams(Join(tokens, " "));
        SplitParams(t + " " + Join(rest, " "));
        { SplitParamsConcat(t, Join(rest, " ")); }
        SplitParams(t) + SplitParams(Join(rest, " "));
        { SplitParamsNoSpace(t); SplitParamsJoin(rest); }
        [t] + rest;
      }
      assert tokens == [t] + rest;
    }
  }

  /** Idempotence: re-tokenising the single-space join of the tokens of `s`
      gives the same tokens. */
  lemma SplitParamsIdempotent(s: string)
    ensures SplitParams(Join(SplitParams(s), " ")) == SplitParams(s)
  {
    SplitParamsJoin(SplitParams(s));
  }
}
