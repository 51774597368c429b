/** The `pathsep!` and `path!` macros of `src/macros.rs`, which expand at compile time into a
    string literal. */
module Macros {
  import opened Text

  /** `pathsep!()`: `"\\"` when compiled for Windows, `"/"` otherwise. */
  function PathSep(windows: bool): (sep: string)
    ensures |sep| == 1
    ensures windows <==> sep == "\\"
  {
    if windows then "\\" else "/"
  }

  /** The expansion of `path!(...)`, rule by rule: `path!()`, `path!(/)`, `path!(/ args…)`,
      `path!(a)` and `path!(a, rest…)`. `rooted` says whether the invocation starts with `/`.
      A rooted path starts with the separator, and any other path with its first argument. */
  function PathMacro(rooted: bool, args: seq<string>, windows: bool): (p: string)
    ensures rooted ==> |p| > 0 && p[..1] == PathSep(windows)
    ensures !rooted && |args| > 0 ==> |p| >= |args[0]| && p[..|args[0]|] == args[0]
    decreases rooted, |args|
  {
    if rooted then PathSep(windows) + PathMacro(false, args, windows)
    else if |args| == 0 then ""
    else if |args| == 1 then args[0]
    else args[0] + PathSep(windows) + PathMacro(false, args[1..], windows)
  }

  /** `path!` joins its arguments with the separator, with one more separator in front when it
      starts with `/`; so `path!()` is `""`, `path!(/)` is the separator and `path!(a)` is `a`. */
  lemma {:induction false} PathMacroJoins(rooted: bool, args: seq<string>, windows: bool)
    ensures PathMacro(rooted, args, windows)
      == (if rooted then PathSep(windows) else "") + Join(args, PathSep(windows))
    decreases rooted, |args|
  {
    if rooted {
      PathMacroJoins(false, args, windows);
    } else if |args| > 1 {
      PathMacroJoins(false, args[1..], windows);
    }
  }
}
