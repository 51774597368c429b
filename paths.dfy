/** Unix path handling from Rust's `std::path`, which `Source::name`, the plugin resolver and
    the build script rely on: `Path::components` and `PathBuf::join`. */
module Paths {
  import opened Text
  import opened Shared

  /** A component of a path, as `std::path::Component` has them on Unix. */
  datatype Component = RootDir | CurDir | ParentDir | Normal(name: string)

  /** A name that is a normal component: non-empty, free of `/`, and neither `.` nor `..`. */
  predicate IsNormalName(s: string)
  {
    s != [] && '/' !in s && s != "." && s != ".."
  }

  /** The components behind a sequence of `/`-separated segments: empty and `.` segments
      vanish, `..` is the parent directory and anything else is a normal component. */
  function SegmentComponents(segs: seq<string>): (r: seq<Component>)
    ensures forall i :: 0 <= i < |r| ==> r[i] == ParentDir || (r[i].Normal? && r[i].name != [])
  {
    if segs == [] then []
    else
      var rest := SegmentComponents(segs[1..]);
      if segs[0] == "" || segs[0] == "." then rest
      else if segs[0] == ".." then [ParentDir] + rest
      else [Normal(segs[0])] + rest
  }

  /** `Path::components`: a leading root, then a `.` kept only at the very start of a relative
      path, then the remaining segments with repeated separators and interior `.` removed. */
  function Components(p: string): seq<Component>
  {
    ComponentsOf(|p| > 0 && p[0] == '/', SplitOn(p, "/"))
  }

  /** The components of a path, given whether it is rooted and its `/`-separated segments. */
  function ComponentsOf(rooted: bool, segs: seq<string>): seq<Component>
    requires |segs| >= 1
  {
    var leadingCur := !rooted && segs[0] == ".";
    (if rooted then [RootDir] else []) + (if leadingCur then [CurDir] else [])
      + SegmentComponents(if leadingCur then segs[1..] else segs)
  }

  /** `base.join(rel)` (`PathBuf::push`): an absolute `rel` replaces `base`; otherwise a `/` is
      added unless `base` is empty or already ends with one. */
  function JoinPath(base: string, rel: string): string
  {
    if |rel| > 0 && rel[0] == '/' then rel
    else if base != [] && base[|base| - 1] != '/' then base + "/" + rel
    else base + rel
  }

  // ---------------------------------------------------------------------------------------
  // facts about splitting on a single character

  /** Splitting at a separator splits both sides independently. */
  lemma {:induction false} SplitOnConcat(a: string, b: string, c: char)
    ensures SplitOn(a + [c] + b, [c]) == SplitOn(a, [c]) + SplitOn(b, [c])
    decreases |a|
  {
    var v := a + [c] + b;
    if a == [] {
      assert v[..1] == [c];
      assert v[1..] == b;
    } else if a[0] == c {
      assert v[..1] == [c];
      assert v[1..] == a[1..] + [c] + b;
      assert a[..1] == [c];
      SplitOnConcat(a[1..], b, c);
    } else {
      assert v[..1][0] == a[0];
      assert v[1..] == a[1..] + [c] + b;
      SplitOnConcat(a[1..], b, c);
      assert a[..1][0] == a[0];
    }
  }

  /** Text without the separator is a single piece. */
  lemma {:induction false} SplitOnWithout(b: string, c: char)
    requires c !in b
    ensures SplitOn(b, [c]) == [b]
    decreases |b|
  {
    if |b| >= 1 {
      assert b[0] in b;
      assert b[..1][0] == b[0];
      SplitOnWithout(b[1..], c);
      assert b == [b[0]] + b[1..];
    }
  }

  /** No piece of a single-character split contains that character. */
  lemma {:induction false} SplitOnPiecesFree(v: string, c: char)
    ensures forall i :: 0 <= i < |SplitOn(v, [c])| ==> c !in SplitOn(v, [c])[i]
    decreases |v|
  {
    if |v| >= 1 {
      SplitOnPiecesFree(v[1..], c);
    }
  }

  /** Joining pieces that are free of `c` with `c` and splitting again gives the pieces back. */
  lemma {:induction false} SplitJoinRoundTrip(parts: seq<string>, c: char)
    requires |parts| >= 1
    requires forall i :: 0 <= i < |parts| ==> c !in parts[i]
    ensures SplitOn(Join(parts, [c]), [c]) == parts
    decreases |parts|
  {
    if |parts| == 1 {
      SplitOnWithout(parts[0], c);
    } else {
      SplitJoinRoundTrip(parts[1..], c);
      SplitOnConcat(parts[0], Join(parts[1..], [c]), c);
      SplitOnWithout(parts[0], c);
      assert parts == [parts[0]] + parts[1..];
    }
  }

  // ---------------------------------------------------------------------------------------
  // facts about components

  /** The components of segments are those of each segment in turn. */
  lemma {:induction false} SegmentComponentsSnoc(segs: seq<string>, s: string)
    ensures SegmentComponents(segs + [s]) == SegmentComponents(segs) + SegmentComponents([s])
    decreases |segs|
  {
    if segs == [] {
      assert [] + [s] == [s];
    } else {
      assert (segs + [s])[1..] == segs[1..] + [s];
      SegmentComponentsSnoc(segs[1..], s);
    }
  }

  /** Segments free of `/` give normal components with normal names. */
  lemma {:induction false} SegmentNamesNormal(segs: seq<string>)
    requires forall i :: 0 <= i < |segs| ==> '/' !in segs[i]
    ensures forall i :: 0 <= i < |SegmentComponents(segs)| && SegmentComponents(segs)[i].Normal? ==>
      IsNormalName(SegmentComponents(segs)[i].name)
    decreases |segs|
  {
    if segs != [] {
      SegmentNamesNormal(segs[1..]);
    }
  }

  /** Every normal component of a path has a normal name. */
  lemma ComponentNamesNormal(p: string)
    ensures forall i :: 0 <= i < |Components(p)| && Components(p)[i].Normal? ==>
      IsNormalName(Components(p)[i].name)
  {
    var segs := SplitOn(p, "/");
    SplitOnPiecesFree(p, '/');
    var rooted := |p| > 0 && p[0] == '/';
    var leadingCur := !rooted && segs[0] == ".";
    var rest := if leadingCur then segs[1..] else segs;
    SegmentNamesNormal(rest);
    var pre := (if rooted then [RootDir] else []) + (if leadingCur then [CurDir] else []);
    assert Components(p) == pre + SegmentComponents(rest);
    forall i | 0 <= i < |Components(p)| && Components(p)[i].Normal?
      ensures IsNormalName(Components(p)[i].name)
    {
      assert i >= |pre|;
      assert Components(p)[i] == SegmentComponents(rest)[i - |pre|];
    }
  }

  /** The components of `base` joined with a relative segment `s` free of `/` are those of
      `base` followed by the component of `s`. */
  lemma JoinedComponents(base: string, s: string)
    requires '/' !in s && s != [] && base != []
    ensures exists pre :: Components(JoinPath(base, s)) == pre + SegmentComponents([s])
  {
    var p := JoinPath(base, s);
    var front := if base[|base| - 1] != '/' then base else base[..|base| - 1];
    assert s[0] in s;
    assert p == front + ['/'] + s;
    SplitOnConcat(front, s, '/');
    SplitOnWithout(s, '/');
    var fs := SplitOn(front, "/");
    var rooted := |p| > 0 && p[0] == '/';
    ComponentsOfSnoc(rooted, fs, s);
    assert Components(p) == ComponentsOf(rooted, fs) + SegmentComponents([s]);
  }

  /** One more segment adds its own components at the end. */
  lemma ComponentsOfSnoc(rooted: bool, fs: seq<string>, s: string)
    requires |fs| >= 1
    ensures ComponentsOf(rooted, fs + [s]) == ComponentsOf(rooted, fs) + SegmentComponents([s])
  {
    var leadingCur := !rooted && fs[0] == ".";
    if leadingCur {
      assert (fs + [s])[1..] == fs[1..] + [s];
      SegmentComponentsSnoc(fs[1..], s);
    } else {
      SegmentComponentsSnoc(fs, s);
    }
  }

  /** Joining a normal name onto a path makes that name the last component. */
  lemma JoinedNameIsLast(base: string, n: string)
    requires IsNormalName(n)
    ensures var cs := Components(JoinPath(base, n)); |cs| > 0 && cs[|cs| - 1] == Normal(n)
  {
    assert n[0] in n;
    if base == [] {
      assert JoinPath(base, n) == n;
      SplitOnWithout(n, '/');
      assert SegmentComponents([n]) == [Normal(n)];
    } else {
      JoinedComponents(base, n);
      assert SegmentComponents([n]) == [Normal(n)];
    }
  }

  /** Joining `..` onto a non-empty path makes the parent directory the last component. */
  lemma JoinedParentIsLast(base: string)
    requires base != []
    ensures var cs := Components(JoinPath(base, "..")); |cs| > 0 && cs[|cs| - 1] == ParentDir
  {
    JoinedComponents(base, "..");
    assert SegmentComponents([".."]) == [ParentDir];
  }
}
