/** The string utilities exposed to Lua by `src/lua/api/shared.rs` (and, identically, by
    `src/lua/shared.rs`): `split`, `trim`, `startswith` and `endswith`. */
module Shared {
  import opened Wrappers
  import opened Text

  // ---------------------------------------------------------------------------------------
  // split

  /** The pieces produced by Rust's `str::split` with a non-empty pattern: the text between
      the left-most, non-overlapping occurrences of `pat`. */
  function SplitOn(value: string, pat: string): (r: seq<string>)
    requires pat != []
    ensures |r| >= 1
    decreases |value|
  {
    if |value| < |pat| then [value]
    else if value[..|pat|] == pat then [""] + SplitOn(value[|pat|..], pat)
    else
      var rest := SplitOn(value[1..], pat);
      [[value[0]] + rest[0]] + rest[1..]
  }

  /** The pieces produced by `str::split("")`: an empty piece, every character on its own,
      and an empty piece. */
  function SplitEmptyPattern(value: string): (r: seq<string>)
    ensures |r| == |value| + 2
  {
    [""] + seq(|value|, i requires 0 <= i < |value| => [value[i]]) + [""]
  }

  /** Rust's `value.split(pat)`, collected. */
  function Pieces(value: string, pat: string): (r: seq<string>)
    ensures |r| >= 1
  {
    if pat == [] then SplitEmptyPattern(value) else SplitOn(value, pat)
  }

  /** The non-empty pieces, in their order (the `filter_map` of `split`). */
  function RemoveEmpty(xs: seq<string>): (r: seq<string>)
    ensures forall i :: 0 <= i < |r| ==> r[i] != []
    ensures |r| <= |xs|
  {
    if xs == [] then []
    else if xs[0] == [] then RemoveEmpty(xs[1..])
    else [xs[0]] + RemoveEmpty(xs[1..])
  }

  /** The Lua function `split(value, pat, remove_empty)`; `remove_empty` is optional and
      defaults to `false`. */
  function Split(value: string, pat: string, removeEmpty: Option<bool>): (r: seq<string>)
    ensures removeEmpty != Some(true) ==> Join(r, pat) == value
    ensures removeEmpty == Some(true) ==> forall i :: 0 <= i < |r| ==> r[i] != []
  {
    var pieces := Pieces(value, pat);
    JoinPieces(value, pat);
    var drop := match removeEmpty case None => false case Some(b) => b;
    if drop then RemoveEmpty(pieces) else pieces
  }

  /** Joining the pieces with the pattern gives back the split text. */
  lemma {:induction false} JoinSplitOn(value: string, pat: string)
    requires pat != []
    ensures Join(SplitOn(value, pat), pat) == value
    decreases |value|
  {
    if |value| < |pat| {
    } else if value[..|pat|] == pat {
      var rest := SplitOn(value[|pat|..], pat);
      JoinSplitOn(value[|pat|..], pat);
      assert ([""] + rest)[1..] == rest;
      assert value == pat + value[|pat|..];
    } else {
      var rest := SplitOn(value[1..], pat);
      JoinSplitOn(value[1..], pat);
      JoinPrependFirst([value[0]], rest, pat);
      assert value == [value[0]] + value[1..];
    }
  }

  lemma {:induction false} JoinSingletons(value: string)
    ensures Join(seq(|value|, i requires 0 <= i < |value| => [value[i]]), "") == value
    decreases |value|
  {
    var cs := seq(|value|, i requires 0 <= i < |value| => [value[i]]);
    if |value| > 1 {
      JoinSingletons(value[1..]);
      assert cs[1..] == seq(|value[1..]|, i requires 0 <= i < |value[1..]| => [value[1..][i]]);
      assert value == [value[0]] + value[1..];
    }
  }

  lemma JoinAroundEmpty(middle: seq<string>)
    ensures Join([""] + middle + [""], "") == Join(middle, "")
  {
    if |middle| == 0 {
      assert [""] + middle + [""] == ["", ""];
    } else {
      JoinSnoc([""] + middle, "", "");
      assert ([""] + middle)[1..] == middle;
    }
  }

  /** Without `remove_empty`, joining the pieces of `split(value, pat)` with `pat` gives back
      `value`, for the empty pattern too. */
  lemma JoinPieces(value: string, pat: string)
    ensures Join(Pieces(value, pat), pat) == value
  {
    if pat == [] {
      var middle := seq(|value|, i requires 0 <= i < |value| => [value[i]]);
      JoinAroundEmpty(middle);
      JoinSingletons(value);
    } else {
      JoinSplitOn(value, pat);
    }
  }

  /** The positions of the non-empty items of `xs` (offset by `from`), in increasing order. */
  function KeptIndices(xs: seq<string>, from: nat): (ix: seq<nat>)
    ensures forall k :: 0 <= k < |ix| ==> from <= ix[k] < from + |xs|
  {
    if xs == [] then []
    else if xs[0] == [] then KeptIndices(xs[1..], from + 1)
    else [from] + KeptIndices(xs[1..], from + 1)
  }

  /** The k-th item `RemoveEmpty` keeps is the input item at the k-th kept index. */
  lemma {:induction false} RemoveEmptyAt(xs: seq<string>, from: nat)
    ensures |KeptIndices(xs, from)| == |RemoveEmpty(xs)|
    ensures forall k :: 0 <= k < |RemoveEmpty(xs)| ==>
      RemoveEmpty(xs)[k] == xs[KeptIndices(xs, from)[k] - from]
    decreases |xs|
  {
    if xs != [] {
      RemoveEmptyAt(xs[1..], from + 1);
    }
  }

  /** The kept indices increase strictly, so `RemoveEmpty` keeps the input order. */
  lemma {:induction false} KeptIndicesIncrease(xs: seq<string>, from: nat)
    ensures forall k, l :: 0 <= k < l < |KeptIndices(xs, from)| ==>
      KeptIndices(xs, from)[k] < KeptIndices(xs, from)[l]
    decreases |xs|
  {
    if xs != [] {
      KeptIndicesIncrease(xs[1..], from + 1);
    }
  }

  /** An index is kept exactly when its item is non-empty, so exactly the empty pieces are
      dropped. */
  lemma {:induction false} KeptExactlyNonEmpty(xs: seq<string>, from: nat)
    ensures forall i :: 0 <= i < |xs| ==> (xs[i] != [] <==> from + i in KeptIndices(xs, from))
    decreases |xs|
  {
    if xs != [] {
      KeptExactlyNonEmpty(xs[1..], from + 1);
      var ix := KeptIndices(xs, from);
      var tail := KeptIndices(xs[1..], from + 1);
      assert from !in tail;
      forall i | 0 < i < |xs|
        ensures xs[i] != [] <==> from + i in ix
      {
        assert xs[i] == xs[1..][i - 1];
        assert from + i in ix <==> from + 1 + (i - 1) in tail;
      }
    }
  }

  // ---------------------------------------------------------------------------------------
  // trim

  /** The number of leading whitespace characters. */
  function LeadingWhitespace(s: string): (n: nat)
    ensures n <= |s|
    ensures AllWhitespace(s[..n])
    ensures n < |s| ==> !IsWhitespace(s[n])
  {
    if |s| > 0 && IsWhitespace(s[0]) then
      var n := 1 + LeadingWhitespace(s[1..]);
      assert s[..n] == [s[0]] + s[1..][..n - 1];
      n
    else 0
  }

  /** The index just after the last non-whitespace character. */
  function ContentEnd(s: string): (e: nat)
    ensures e <= |s|
    ensures AllWhitespace(s[e..])
    ensures e > 0 ==> !IsWhitespace(s[e - 1])
  {
    if |s| > 0 && IsWhitespace(s[|s| - 1]) then
      var e := ContentEnd(s[..|s| - 1]);
      assert s[e..] == s[..|s| - 1][e..] + [s[|s| - 1]];
      e
    else |s|
  }

  /** Rust's `str::trim`: the text without leading and trailing whitespace; it is no longer
      than `s` and neither starts nor ends with whitespace. */
  function Trim(s: string): (r: string)
    ensures |r| <= |s|
    ensures r != [] ==> !IsWhitespace(r[0]) && !IsWhitespace(r[|r| - 1])
  {
    var b := LeadingWhitespace(s);
    var e := ContentEnd(s[b..]);
    assert e > 0 ==> s[b..][..e][0] == s[b];
    s[b..][..e]
  }

  /** `trim` returns a contiguous substring `s[b..e]`; everything before `b` and after `e` is
      whitespace. */
  lemma TrimSubstring(s: string)
    ensures exists b, e ::
      && 0 <= b <= e <= |s| && Trim(s) == s[b..e]
      && AllWhitespace(s[..b]) && AllWhitespace(s[e..])
  {
    var b := LeadingWhitespace(s);
    var t := s[b..];
    var e := ContentEnd(t);
    assert Trim(s) == s[b..b + e];
    assert s[b + e..] == t[e..];
  }

  /** Trimming twice is the same as trimming once. */
  lemma TrimIdempotent(s: string)
    ensures Trim(Trim(s)) == Trim(s)
  {
    TrimSubstring(s);
    var t := Trim(s);
    if t != [] {
      assert LeadingWhitespace(t) == 0;
      assert ContentEnd(t) == |t|;
    }
  }

  // ---------------------------------------------------------------------------------------
  // startswith / endswith

  /** `value.starts_with(pat)`: `value` is `pat` followed by something. */
  function StartsWith(value: string, pat: string): (r: bool)
    ensures r <==> exists rest :: value == pat + rest
  {
    if |pat| <= |value| && value[..|pat|] == pat then
      assert value == pat + value[|pat|..];
      true
    else false
  }

  /** `value.ends_with(pat)`: `value` is something followed by `pat`. */
  function EndsWith(value: string, pat: string): (r: bool)
    ensures r <==> exists front :: value == front + pat
  {
    if |pat| > |value| then false
    else if value[|value| - |pat|..] == pat then
      assert value == value[..|value| - |pat|] + pat;
      true
    else
      assert forall front :: (front + pat)[|front|..] == pat;
      false
  }
}
