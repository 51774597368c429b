/** The build script `build.rs`: it turns every Lua file under `runtime/` into a module name
    (`get_module_name`), compiles it to bytecode, and writes a Rust source file holding the
    table `GEN_BUILTIN` of `(modname, bytecode)` pairs that the runtime installs at start-up
    (`compile_lua`). */
module Build {
  import opened Wrappers
  import opened Text
  import opened Shared
  import opened Paths

  /** The directory holding the Lua sources of the builtin modules. */
  const LuaSrcDir := "runtime"

  /** Why the build stops: the path is not under `runtime/`, a module part breaks one of the
      three naming rules, or the Lua compiler rejects the file. */
  datatype BuildError =
    | NotUnderSourceDir
    | EmptyPart
    | NoLeadingLetter
    | BadCharacter
    | CompileFailed(message: string)

  /** The panic message of each rule of `get_module_name`. */
  function Message(e: BuildError): (m: string)
    ensures e.EmptyPart? ==> m == "module part must not be empty"
    ensures e.CompileFailed? ==> m == e.message
  {
    match e
    case NotUnderSourceDir => "called `Result::unwrap()` on an `Err` value: StripPrefixError(())"
    case EmptyPart => "module part must not be empty"
    case NoLeadingLetter => "module part must start with a letter"
    case BadCharacter => "module name must only contain alphanumeric, -, or _"
    case CompileFailed(message) => message
  }

  predicate IsAlphabetic(c: char)
  {
    'a' <= c <= 'z' || 'A' <= c <= 'Z'
  }

  predicate IsAlphanumeric(c: char)
  {
    IsAlphabetic(c) || IsDigit(c)
  }

  /** A character allowed in a module part. */
  predicate IsNameChar(c: char)
  {
    IsAlphanumeric(c) || c == '-' || c == '_'
  }

  /** A module part that passes all three naming rules. */
  predicate ValidPart(p: string)
  {
    p != [] && IsAlphabetic(p[0]) && forall i :: 0 <= i < |p| ==> IsNameChar(p[i])
  }

  // ---------------------------------------------------------------------------------------
  // get_module_name

  /** `strip_suffix(".lua").unwrap_or(s)`: one trailing `.lua` is removed, if there is one. */
  function StripLua(s: string): (r: string)
    ensures EndsWith(s, ".lua") ==> s == r + ".lua"
    ensures !EndsWith(s, ".lua") ==> r == s
  {
    if EndsWith(s, ".lua") then s[..|s| - 4] else s
  }

  /** The checks on one normal component: the stripped name, or the first rule it breaks. */
  function CheckPart(name: string): (r: Result<string, BuildError>)
    ensures r.Ok? <==> ValidPart(StripLua(name))
    ensures r.Ok? ==> r.value == StripLua(name)
    ensures r == Err(EmptyPart) <==> StripLua(name) == []
    ensures r == Err(NoLeadingLetter) <==> StripLua(name) != [] && !IsAlphabetic(StripLua(name)[0])
  {
    var p := StripLua(name);
    if p == [] then Err(EmptyPart)
    else if !IsAlphabetic(p[0]) then Err(NoLeadingLetter)
    else if exists i :: 0 <= i < |p| && !IsNameChar(p[i]) then Err(BadCharacter)
    else Ok(p)
  }

  /** The components below `runtime/` (`strip_prefix(LUA_SRC_DIR).unwrap()`), which compares
      whole components. */
  function SourceRelative(path: string): (r: Result<seq<Component>, BuildError>)
    ensures r.Ok? <==> |Components(path)| >= 1 && Components(path)[0] == Normal(LuaSrcDir)
    ensures r.Ok? ==> Components(path) == [Normal(LuaSrcDir)] + r.value
  {
    var cs := Components(path);
    if |cs| >= 1 && cs[0] == Normal(LuaSrcDir) then
      assert cs == [cs[0]] + cs[1..];
      Ok(cs[1..])
    else Err(NotUnderSourceDir)
  }

  /** The module parts of the components, checked from the first to the last; roots, `.` and
      `..` contribute nothing. */
  function PartsSpec(cs: seq<Component>): Result<seq<string>, BuildError>
  {
    if cs == [] then Ok([])
    else if !cs[0].Normal? then PartsSpec(cs[1..])
    else
      match CheckPart(cs[0].name)
      case Err(e) => Err(e)
      case Ok(p) =>
        match PartsSpec(cs[1..])
        case Err(e) => Err(e)
        case Ok(ps) => Ok([p] + ps)
  }

  /** The module name of a source path: its parts joined with `.`, every part a valid one. */
  function ModuleNameSpec(path: string): (r: Result<string, BuildError>)
    ensures r.Ok? ==> exists parts ::
      && r.value == Join(parts, ".")
      && forall j :: 0 <= j < |parts| ==> ValidPart(parts[j])
  {
    match SourceRelative(path)
    case Err(e) => Err(e)
    case Ok(cs) =>
      match PartsSpec(cs)
      case Err(e) => Err(e)
      case Ok(parts) =>
        PartsValid(cs);
        Ok(Join(parts, "."))
  }

  /** The parts found so far in front of what the remaining components give. */
  function Prepend(parts: seq<string>, r: Result<seq<string>, BuildError>): Result<seq<string>, BuildError>
  {
    match r
    case Err(e) => Err(e)
    case Ok(ps) => Ok(parts + ps)
  }

  /** The loop of `get_module_name` over the components: every normal component is stripped
      of `.lua`, checked and pushed; a broken rule stops the build. */
  method CheckParts(cs: seq<Component>) returns (r: Result<seq<string>, BuildError>)
    ensures r == PartsSpec(cs)
  {
    var parts: seq<string> := [];
    var i := 0;
    assert cs[0..] == cs;
    match PartsSpec(cs) {
      case Err(_) =>
      case Ok(ps) => assert [] + ps == ps;
    }
    while i < |cs|
      invariant 0 <= i <= |cs|
      invariant PartsSpec(cs) == Prepend(parts, PartsSpec(cs[i..]))
    {
      assert cs[i..][0] == cs[i] && cs[i..][1..] == cs[i + 1..];
      if cs[i].Normal? {
        var checked := CheckPart(cs[i].name);
        if checked.Err? {
          return Err(checked.error);
        }
        match PartsSpec(cs[i + 1..]) {
          case Err(_) =>
          case Ok(ps) => assert parts + ([checked.value] + ps) == (parts + [checked.value]) + ps;
        }
        parts := parts + [checked.value];
      }
      i := i + 1;
    }
    assert cs[i..] == [];
    assert parts + [] == parts;
    return Ok(parts);
  }

  /** `get_module_name`: the path below `runtime/`, its checked parts, joined with `.`. */
  method GetModuleName(path: string) returns (r: Result<string, BuildError>)
    ensures r == ModuleNameSpec(path)
  {
    var rel := SourceRelative(path);
    if rel.Err? {
      return Err(rel.error);
    }
    var parts := CheckParts(rel.value);
    if parts.Err? {
      return Err(parts.error);
    }
    return Ok(Join(parts.value, "."));
  }

  // ---------------------------------------------------------------------------------------
  // properties of module names

  /** The names of the normal components, in order: a name is listed exactly when it is a
      normal component, and a path of normal components only gives its names one by one. */
  function NormalNames(cs: seq<Component>): (r: seq<string>)
    ensures |r| <= |cs|
    ensures forall n :: n in r <==> Normal(n) in cs
    ensures (forall i :: 0 <= i < |cs| ==> cs[i].Normal?) ==>
      |r| == |cs| && forall i :: 0 <= i < |r| ==> r[i] == cs[i].name
  {
    if cs == [] then []
    else if cs[0].Normal? then [cs[0].name] + NormalNames(cs[1..])
    else NormalNames(cs[1..])
  }

  /** A normal name that passes the checks once stripped of `.lua`. */
  predicate Accepted(name: string)
  {
    ValidPart(StripLua(name))
  }

  /** The checks applied to a list of names, from the first to the last. */
  function CheckNames(ns: seq<string>): Result<seq<string>, BuildError>
  {
    if ns == [] then Ok([])
    else
      match CheckPart(ns[0])
      case Err(e) => Err(e)
      case Ok(p) =>
        match CheckNames(ns[1..])
        case Err(e) => Err(e)
        case Ok(ps) => Ok([p] + ps)
  }

  /** Checking the components is checking their normal names. */
  lemma {:induction false} PartsChecksNames(cs: seq<Component>)
    ensures PartsSpec(cs) == CheckNames(NormalNames(cs))
  {
    if cs != [] {
      PartsChecksNames(cs[1..]);
      if cs[0].Normal? {
        var rest := NormalNames(cs[1..]);
        assert ([cs[0].name] + rest)[1..] == rest;
      }
    }
  }

  /** Every name in `ns` passes the checks. */
  predicate AllAccepted(ns: seq<string>)
  {
    forall j :: 0 <= j < |ns| ==> Accepted(ns[j])
  }

  lemma AllAcceptedCons(ns: seq<string>)
    requires ns != []
    ensures AllAccepted(ns) <==> Accepted(ns[0]) && AllAccepted(ns[1..])
  {
    var rest := ns[1..];
    if Accepted(ns[0]) && AllAccepted(rest) {
      forall j | 0 <= j < |ns| ensures Accepted(ns[j]) {
        if j > 0 {
          assert ns[j] == rest[j - 1];
        }
      }
    }
  }

  lemma {:induction false} CheckNamesOk(ns: seq<string>)
    ensures CheckNames(ns).Ok? <==> AllAccepted(ns)
  {
    if ns != [] {
      CheckNamesOk(ns[1..]);
      AllAcceptedCons(ns);
    }
  }

  lemma {:induction false} CheckNamesValue(ns: seq<string>)
    requires CheckNames(ns).Ok?
    ensures CheckNames(ns).value == seq(|ns|, j requires 0 <= j < |ns| => StripLua(ns[j]))
  {
    if ns != [] {
      var rest := ns[1..];
      CheckNamesValue(rest);
      var ps := CheckNames(rest).value;
      assert CheckNames(ns).value == [StripLua(ns[0])] + ps;
      forall j | 0 <= j < |ns|
        ensures ([StripLua(ns[0])] + ps)[j] == StripLua(ns[j])
      {
        if j > 0 {
          assert ns[j] == rest[j - 1];
        }
      }
    }
  }

  /** The names before index `j` all pass the checks and the one at `j` is rejected with `e`. */
  predicate FirstRejected(ns: seq<string>, j: int, e: BuildError)
  {
    0 <= j < |ns| && CheckPart(ns[j]) == Err(e) && forall k :: 0 <= k < j ==> Accepted(ns[k])
  }

  lemma FirstRejectedCons(ns: seq<string>, j: int, e: BuildError)
    requires ns != [] && Accepted(ns[0]) && FirstRejected(ns[1..], j, e)
    ensures FirstRejected(ns, j + 1, e)
  {
    var rest := ns[1..];
    assert ns[j + 1] == rest[j];
    forall k | 0 <= k < j + 1 ensures Accepted(ns[k]) {
      if k > 0 {
        assert ns[k] == rest[k - 1];
      }
    }
  }

  lemma {:induction false} CheckNamesFirstError(ns: seq<string>)
    requires CheckNames(ns).Err?
    ensures exists j :: FirstRejected(ns, j, CheckNames(ns).error)
  {
    if CheckPart(ns[0]).Err? {
      assert FirstRejected(ns, 0, CheckNames(ns).error);
    } else {
      var rest := ns[1..];
      CheckNamesFirstError(rest);
      var j :| FirstRejected(rest, j, CheckNames(rest).error);
      FirstRejectedCons(ns, j, CheckNames(ns).error);
    }
  }

  /** Checking succeeds exactly when every normal name, stripped of `.lua`, is a valid part, and
      then the parts are those stripped names in their order. */
  lemma PartsAreStrippedNames(cs: seq<Component>)
    ensures var ns := NormalNames(cs);
      PartsSpec(cs).Ok? <==> forall j :: 0 <= j < |ns| ==> Accepted(ns[j])
    ensures var ns := NormalNames(cs);
      PartsSpec(cs).Ok? ==> PartsSpec(cs).value == seq(|ns|, j requires 0 <= j < |ns| => StripLua(ns[j]))
  {
    PartsChecksNames(cs);
    CheckNamesOk(NormalNames(cs));
    if PartsSpec(cs).Ok? {
      CheckNamesValue(NormalNames(cs));
    }
  }

  /** A failed check reports the rule broken by the first invalid normal name. */
  lemma FirstInvalidReported(cs: seq<Component>)
    requires PartsSpec(cs).Err?
    ensures exists j :: FirstRejected(NormalNames(cs), j, PartsSpec(cs).error)
  {
    PartsChecksNames(cs);
    CheckNamesFirstError(NormalNames(cs));
  }

  /** Every part that passes the checks is a valid part. */
  lemma {:induction false} PartsValid(cs: seq<Component>)
    requires PartsSpec(cs).Ok?
    ensures forall j :: 0 <= j < |PartsSpec(cs).value| ==> ValidPart(PartsSpec(cs).value[j])
  {
    if cs != [] {
      PartsValid(cs[1..]);
    }
  }

  /** A module name with at least one part splits at `.` back into its parts: parts never
      contain a dot, so the name determines the path segments it came from. */
  lemma ModuleNameSplits(cs: seq<Component>)
    requires PartsSpec(cs).Ok? && PartsSpec(cs).value != []
    ensures SplitOn(Join(PartsSpec(cs).value, "."), ".") == PartsSpec(cs).value
  {
    var ps := PartsSpec(cs).value;
    PartsValid(cs);
    forall j | 0 <= j < |ps|
      ensures '.' !in ps[j]
    {
      assert ValidPart(ps[j]);
    }
    SplitJoinRoundTrip(ps, '.');
  }

  /** Characters that need no escaping between the double quotes of a Rust string literal. */
  predicate PlainName(n: string)
  {
    forall i :: 0 <= i < |n| ==> IsNameChar(n[i]) || n[i] == '.'
  }

  /** Joining valid parts only ever produces name characters and dots. */
  lemma {:induction false} JoinedNameChars(ps: seq<string>)
    requires forall j :: 0 <= j < |ps| ==> ValidPart(ps[j])
    ensures PlainName(Join(ps, "."))
  {
    if |ps| == 1 {
      assert ValidPart(ps[0]);
    } else if |ps| > 1 {
      JoinedNameChars(ps[1..]);
      var n := Join(ps, ".");
      var tail := Join(ps[1..], ".");
      assert n == ps[0] + "." + tail;
      forall i | 0 <= i < |n|
        ensures IsNameChar(n[i]) || n[i] == '.'
      {
        if i < |ps[0]| {
          assert n[i] == ps[0][i];
          assert ValidPart(ps[0]);
        } else if i == |ps[0]| {
          assert n[i] == '.';
        } else {
          var k := i - |ps[0]| - 1;
          assert 0 <= k < |tail| && n[i] == tail[k];
          assert PlainName(tail);
        }
      }
    }
  }

  lemma PartsJoinPlain(cs: seq<Component>)
    requires PartsSpec(cs).Ok?
    ensures PlainName(Join(PartsSpec(cs).value, "."))
  {
    PartsValid(cs);
    JoinedNameChars(PartsSpec(cs).value);
  }

  /** A module name holds only letters, digits, `-`, `_` and `.`, so it can be written between
      the double quotes of the generated Rust source without escaping. */
  lemma ModuleNameNeedsNoEscape(path: string)
    requires ModuleNameSpec(path).Ok?
    ensures PlainName(ModuleNameSpec(path).value)
    ensures '"' !in ModuleNameSpec(path).value && '\\' !in ModuleNameSpec(path).value
  {
    var cs := SourceRelative(path).value;
    PartsJoinPlain(cs);
    var n := ModuleNameSpec(path).value;
    assert n == Join(PartsSpec(cs).value, ".");
    forall i | 0 <= i < |n|
      ensures n[i] != '"' && n[i] != '\\'
    {
    }
  }

  /** A valid part never ends in `.lua`: it has no dot. */
  lemma ValidPartNoSuffix(a: string)
    requires ValidPart(a)
    ensures !EndsWith(a, ".lua") && '/' !in a
  {
    if |a| >= 4 {
      assert a[|a| - 4..][0] == a[|a| - 4] != '.';
    }
    forall i | 0 <= i < |a|
      ensures a[i] != '/'
    {
    }
  }

  /** The `/`-separated segments of `runtime/<a>/<file>` for segments free of `/`. */
  lemma NestedSegments(a: string, file: string)
    requires '/' !in a && '/' !in file
    ensures SplitOn(LuaSrcDir + "/" + a + "/" + file, "/") == [LuaSrcDir, a, file]
  {
    var rel := a + ['/'] + file;
    TwoSegments(a, file);
    assert LuaSrcDir + "/" + a + "/" + file == LuaSrcDir + ['/'] + rel;
    SplitOnConcat(LuaSrcDir, rel, '/');
    SplitOnWithout(LuaSrcDir, '/');
    assert [LuaSrcDir] + [a, file] == [LuaSrcDir, a, file];
  }

  lemma TwoSegments(a: string, file: string)
    requires '/' !in a && '/' !in file
    ensures SplitOn(a + ['/'] + file, "/") == [a, file]
  {
    SplitOnConcat(a, file, '/');
    SplitOnWithout(a, '/');
    SplitOnWithout(file, '/');
  }

  /** The components of `runtime/<a>/<file>` for normal names `a` and `file`. */
  lemma NestedComponents(a: string, file: string)
    requires IsNormalName(a) && IsNormalName(file)
    ensures Components(LuaSrcDir + "/" + a + "/" + file) == [Normal(LuaSrcDir), Normal(a), Normal(file)]
  {
    var p := LuaSrcDir + "/" + a + "/" + file;
    var segs := [LuaSrcDir, a, file];
    NestedSegments(a, file);
    assert p[0] == 'r';
    assert Components(p) == ComponentsOf(false, segs);
    assert segs[0] != ".";
    assert ComponentsOf(false, segs) == SegmentComponents(segs);
    assert segs[1..] == [a, file] && segs[1..][1..] == [file] && segs[1..][1..][1..] == [];
    assert SegmentComponents([file]) == [Normal(file)];
    assert SegmentComponents([a, file]) == [Normal(a), Normal(file)];
    assert LuaSrcDir != "" && LuaSrcDir != "." && LuaSrcDir != "..";
  }

  /** The file `runtime/<a>/<b>.lua` is the module `<a>.<b>` when both parts are valid. */
  lemma NestedFileName(a: string, b: string)
    requires ValidPart(a) && ValidPart(b)
    ensures ModuleNameSpec(LuaSrcDir + "/" + a + "/" + b + ".lua") == Ok(a + "." + b)
  {
    ValidPartNoSuffix(a);
    ValidPartNoSuffix(b);
    var file := b + ".lua";
    assert LuaSrcDir + "/" + a + "/" + b + ".lua" == LuaSrcDir + "/" + a + "/" + file;
    forall i | 0 <= i < |file|
      ensures file[i] != '/'
    {
      if i < |b| {
        assert file[i] == b[i];
      } else {
        assert file[i] == ".lua"[i - |b|];
      }
    }
    assert IsNormalName(a) by {
      assert IsAlphabetic(a[0]);
    }
    assert IsNormalName(file) by {
      assert file[0] == b[0] && IsAlphabetic(b[0]) && |file| >= 5;
    }
    NestedComponents(a, file);
    assert StripLua(file) == b;
    assert StripLua(a) == a;
    assert CheckPart(a) == Ok(a);
    assert CheckPart(file) == Ok(b);
    var last := [Normal(file)];
    assert last[1..] == [];
    assert PartsSpec(last[1..]) == Ok([]);
    assert PartsSpec(last) == Ok([b] + []);
    assert [b] + [] == [b];
    var cs := [Normal(a), Normal(file)];
    assert cs[1..] == last;
    assert PartsSpec(cs) == Ok([a] + [b]);
    assert [a] + [b] == [a, b];
    var p := LuaSrcDir + "/" + a + "/" + file;
    assert Components(p)[1..] == cs;
    assert SourceRelative(p) == Ok(cs);
    assert Join([a, b], ".") == a + "." + b by {
      assert [a, b][1..] == [b];
    }
  }

  /** A file named just `.lua` has an empty module part. */
  lemma BareSuffixIsEmpty()
    ensures CheckPart(".lua") == Err(EmptyPart)
  {
    assert ".lua" == "" + ".lua";
  }

  // ---------------------------------------------------------------------------------------
  // rendering the generated source

  function HexDigit(d: nat): (c: char)
    requires d < 16
  {
    "0123456789abcdef"[d]
  }

  /** The value of a lowercase hexadecimal digit. */
  function HexValue(c: char): Option<nat>
  {
    if '0' <= c <= '9' then Some(c as int - '0' as int)
    else if 'a' <= c <= 'f' then Some(c as int - 'a' as int + 10)
    else None
  }

  lemma HexDigitRoundTrip(d: nat)
    requires d < 16
    ensures HexValue(HexDigit(d)) == Some(d)
  {
  }

  /** `0x` and the two lowercase hexadecimal digits of a value below 256. */
  function HexText(n: nat): (s: string)
    requires n < 256
    ensures |s| == 4 && s[0] == '0' && s[1] == 'x'
  {
    ['0', 'x', HexDigit(n / 16), HexDigit(n % 16)]
  }

  /** Reading the value of `0x` and two hexadecimal digits. */
  function ParseHexText(s: string): (r: Option<nat>)
    ensures r.Some? ==> r.value < 256
  {
    if |s| != 4 || s[0] != '0' || s[1] != 'x' then None
    else
      match (HexValue(s[2]), HexValue(s[3]))
      case (Some(hi), Some(lo)) => if hi < 16 && lo < 16 then Some(hi * 16 + lo) else None
      case _ => None
  }

  /** A value's text reads back as that value and holds no `,`. */
  lemma HexTextRoundTrip(n: nat)
    requires n < 256
    ensures ParseHexText(HexText(n)) == Some(n)
    ensures ',' !in HexText(n)
  {
    HexDigitRoundTrip(n / 16);
    HexDigitRoundTrip(n % 16);
  }

  /** `format!("0x{b:02x}")`: `0x` and two digits. */
  function HexByte(b: bv8): (t: string)
    ensures |t| == 4 && t[..2] == "0x"
  {
    HexText(b as int)
  }

  /** Reading a rendered byte back. */
  function ParseHexByte(s: string): Option<bv8>
  {
    match ParseHexText(s)
    case Some(n) => Some(n as bv8)
    case None => None
  }

  /** Every byte renders to text that reads back as that byte. */
  lemma HexByteRoundTrip(b: bv8)
    ensures ParseHexByte(HexByte(b)) == Some(b)
    ensures ',' !in HexByte(b)
  {
    HexTextRoundTrip(b as int);
  }

  /** The bytes of one module, rendered and joined with `,`: the generated array holds exactly
      the compiled bytes, in order. */
  function RenderBytes(bs: seq<bv8>): (text: string)
    ensures DecodeBytes(text) == Some(bs)
  {
    var pieces := seq(|bs|, i requires 0 <= i < |bs| => HexByte(bs[i]));
    var text := Join(pieces, ",");
    ParseRendered(bs);
    PiecesCommaFree(bs);
    assert bs != [] ==> text != "" by {
      if |pieces| > 1 {
        assert |text| >= |pieces[0]|;
      }
    }
    if bs != [] then
      SplitJoinRoundTrip(pieces, ',');
      text
    else text
  }

  /** No rendered byte holds the separator. */
  lemma PiecesCommaFree(bs: seq<bv8>)
    ensures forall i :: 0 <= i < |bs| ==> ',' !in HexByte(bs[i])
  {
    forall i | 0 <= i < |bs|
      ensures ',' !in HexByte(bs[i])
    {
      HexByteRoundTrip(bs[i]);
    }
  }

  /** Reading pieces back as bytes, failing on the first that is not a rendered byte. */
  function ParseBytes(pieces: seq<string>): Option<seq<bv8>>
  {
    if pieces == [] then Some([])
    else
      match (ParseHexByte(pieces[0]), ParseBytes(pieces[1..]))
      case (Some(b), Some(rest)) => Some([b] + rest)
      case _ => None
  }

  /** Reading back the rendered bytes of the generated array. */
  function DecodeBytes(text: string): Option<seq<bv8>>
  {
    if text == "" then Some([]) else ParseBytes(SplitOn(text, ","))
  }

  lemma {:induction false} ParseRendered(bs: seq<bv8>)
    ensures ParseBytes(seq(|bs|, i requires 0 <= i < |bs| => HexByte(bs[i]))) == Some(bs)
  {
    if bs != [] {
      var pieces := seq(|bs|, i requires 0 <= i < |bs| => HexByte(bs[i]));
      assert pieces[1..] == seq(|bs[1..]|, i requires 0 <= i < |bs[1..]| => HexByte(bs[1..][i]));
      ParseRendered(bs[1..]);
      HexByteRoundTrip(bs[0]);
      assert bs == [bs[0]] + bs[1..];
    }
  }

  const HeaderLead := "/// Compiled bytecode for builtin lua modules.\n///\n/// Pairs have the form `(modname, bytecode)`.\nconst GEN_BUILTIN: [(&str, &[u8]); "
  const HeaderTail := "] = [\n"

  /** The header of the generated file, declaring the number of pairs. */
  function Header(n: nat): string
  {
    HeaderLead + NatToDecimal(n) + HeaderTail
  }

  /** The entry of one module: its name as a string literal and its bytes as an array. */
  function Entry(modname: string, bytes: seq<bv8>): string
  {
    "    (\"" + modname + "\", &[" + RenderBytes(bytes) + "]),\n"
  }

  /** The entries of the modules, in the order they were compiled. */
  function Entries(compiled: seq<(string, seq<bv8>)>): string
  {
    if compiled == [] then "" else Entry(compiled[0].0, compiled[0].1) + Entries(compiled[1..])
  }

  /** The whole generated file: the header's fixed text first and the closing `];` last. */
  function GeneratedSource(compiled: seq<(string, seq<bv8>)>): (g: string)
    ensures |g| >= |HeaderLead| + 2 && g[..|HeaderLead|] == HeaderLead && g[|g| - 2..] == "];"
  {
    Header(|compiled|) + Entries(compiled) + "];"
  }

  /** A number rendered right after `lead` reads back from its place. */
  lemma CountAfter(lead: string, n: nat, rest: string)
    ensures var d := NatToDecimal(n); var g := lead + d + rest;
      |g| >= |lead| + |d| && ParseDecimal(g[|lead|..|lead| + |d|]) == n
  {
    var d := NatToDecimal(n);
    assert (lead + d + rest)[|lead|..|lead| + |d|] == d;
    DecimalRoundTrip(n);
  }

  /** The length the header declares reads back as the number of entries written. */
  lemma HeaderDeclaresCount(compiled: seq<(string, seq<bv8>)>)
    ensures var g := GeneratedSource(compiled); var d := NatToDecimal(|compiled|);
      |g| >= |HeaderLead| + |d| && ParseDecimal(g[|HeaderLead|..|HeaderLead| + |d|]) == |compiled|
  {
    var rest := HeaderTail + Entries(compiled) + "];";
    Regroup(HeaderLead, NatToDecimal(|compiled|), HeaderTail, Entries(compiled), "];");
    CountAfter(HeaderLead, |compiled|, rest);
  }

  lemma Regroup(x: string, y: string, t: string, e: string, z: string)
    ensures x + y + t + e + z == x + y + (t + e + z)
  {
  }

  /** Compiling one more module appends its entry after all the others. */
  lemma {:induction false} EntriesSnoc(compiled: seq<(string, seq<bv8>)>, modname: string, bytes: seq<bv8>)
    ensures Entries(compiled + [(modname, bytes)]) == Entries(compiled) + Entry(modname, bytes)
  {
    if compiled == [] {
      assert [] + [(modname, bytes)] == [(modname, bytes)];
    } else {
      assert (compiled + [(modname, bytes)])[1..] == compiled[1..] + [(modname, bytes)];
      EntriesSnoc(compiled[1..], modname, bytes);
    }
  }

  // ---------------------------------------------------------------------------------------
  // compile_lua

  /** The Lua compiler: the bytecode of the file at a path, or the reason it is rejected. */
  type Compiler = string -> Result<seq<bv8>, string>

  /** One globbed path: its module name, then its bytecode. */
  function CompileOne(path: string, compile: Compiler): (r: Result<(string, seq<bv8>), BuildError>)
    ensures r.Ok? <==> ModuleNameSpec(path).Ok? && compile(path).Ok?
    ensures r.Ok? ==> r.value == (ModuleNameSpec(path).value, compile(path).value)
    ensures ModuleNameSpec(path).Err? ==> r == Err(ModuleNameSpec(path).error)
  {
    match ModuleNameSpec(path)
    case Err(e) => Err(e)
    case Ok(name) =>
      match compile(path)
      case Err(m) => Err(CompileFailed(m))
      case Ok(bc) => Ok((name, bc))
  }

  /** The `(modname, bytecode)` pairs of the source files in the order they are found; the
      first path that has no module name or does not compile stops the build. */
  function CollectSpec(paths: seq<string>, compile: Compiler): Result<seq<(string, seq<bv8>)>, BuildError>
  {
    if paths == [] then Ok([])
    else
      match CompileOne(paths[0], compile)
      case Err(e) => Err(e)
      case Ok(pair) =>
        match CollectSpec(paths[1..], compile)
        case Err(e) => Err(e)
        case Ok(rest) => Ok([pair] + rest)
  }

  /** The pairs collected so far in front of what the remaining paths give. */
  function PrependPairs(done: seq<(string, seq<bv8>)>, r: Result<seq<(string, seq<bv8>)>, BuildError>): Result<seq<(string, seq<bv8>)>, BuildError>
  {
    match r
    case Err(e) => Err(e)
    case Ok(ps) => Ok(done + ps)
  }

  /** The body of the loop of `compile_lua`: the module name, then `into_function` and `dump`. */
  method CompileModule(path: string, compile: Compiler) returns (r: Result<(string, seq<bv8>), BuildError>)
    ensures r == CompileOne(path, compile)
  {
    var name := GetModuleName(path);
    if name.Err? {
      return Err(name.error);
    }
    var bc := compile(path);
    if bc.Err? {
      return Err(CompileFailed(bc.error));
    }
    return Ok((name.value, bc.value));
  }

  /** The loop of `compile_lua` over the globbed paths, pushing each module's name and
      bytecode. */
  method CollectModules(paths: seq<string>, compile: Compiler) returns (r: Result<seq<(string, seq<bv8>)>, BuildError>)
    ensures r == CollectSpec(paths, compile)
  {
    var compiled: seq<(string, seq<bv8>)> := [];
    var i := 0;
    assert paths[0..] == paths;
    PrependNothing(CollectSpec(paths, compile));
    while i < |paths|
      invariant 0 <= i <= |paths|
      invariant CollectSpec(paths, compile) == PrependPairs(compiled, CollectSpec(paths[i..], compile))
    {
      CollectCons(paths[i..], compile);
      assert paths[i..][0] == paths[i] && paths[i..][1..] == paths[i + 1..];
      var pair := CompileModule(paths[i], compile);
      if pair.Err? {
        return Err(pair.error);
      }
      PrependTwice(compiled, [pair.value], CollectSpec(paths[i + 1..], compile));
      compiled := compiled + [pair.value];
      i := i + 1;
    }
    assert paths[i..] == [];
    assert compiled + [] == compiled;
    return Ok(compiled);
  }

  lemma PrependNothing(r: Result<seq<(string, seq<bv8>)>, BuildError>)
    ensures PrependPairs([], r) == r
  {
    match r {
      case Err(_) =>
      case Ok(ps) => assert [] + ps == ps;
    }
  }

  lemma PrependTwice(a: seq<(string, seq<bv8>)>, b: seq<(string, seq<bv8>)>, r: Result<seq<(string, seq<bv8>)>, BuildError>)
    ensures PrependPairs(a, PrependPairs(b, r)) == PrependPairs(a + b, r)
  {
    match r {
      case Err(_) =>
      case Ok(ps) => assert a + (b + ps) == (a + b) + ps;
    }
  }

  /** The first path's pair in front of the rest, or the first path's error. */
  lemma CollectCons(paths: seq<string>, compile: Compiler)
    requires paths != []
    ensures CompileOne(paths[0], compile).Err? ==> CollectSpec(paths, compile) == Err(CompileOne(paths[0], compile).error)
    ensures CompileOne(paths[0], compile).Ok? ==>
      CollectSpec(paths, compile) == PrependPairs([CompileOne(paths[0], compile).value], CollectSpec(paths[1..], compile))
  {
  }

  /** `compile_lua`: the generated source, or the error that stops the build. */
  method CompileLua(paths: seq<string>, compile: Compiler) returns (r: Result<string, BuildError>)
    ensures CollectSpec(paths, compile).Err? ==> r == Err(CollectSpec(paths, compile).error)
    ensures CollectSpec(paths, compile).Ok? ==> r == Ok(GeneratedSource(CollectSpec(paths, compile).value))
  {
    var compiled := CollectModules(paths, compile);
    if compiled.Err? {
      return Err(compiled.error);
    }
    return Ok(GeneratedSource(compiled.value));
  }

  /** `pair` holds the module name and the bytecode of `path`. */
  predicate PairOf(path: string, compile: Compiler, pair: (string, seq<bv8>))
  {
    ModuleNameSpec(path) == Ok(pair.0) && compile(path) == Ok(pair.1)
  }

  /** Both the module name and the bytecode of `path` exist. */
  predicate Builds(path: string, compile: Compiler)
  {
    ModuleNameSpec(path).Ok? && compile(path).Ok?
  }

  /** A successful build has one pair per path, in path order, each holding that path's
      module name and bytecode. */
  lemma {:induction false} CollectedPairs(paths: seq<string>, compile: Compiler)
    requires CollectSpec(paths, compile).Ok?
    ensures var c := CollectSpec(paths, compile).value;
      |c| == |paths| && forall i :: 0 <= i < |paths| ==> PairOf(paths[i], compile, c[i])
  {
    if paths != [] {
      var rest := paths[1..];
      CollectedPairs(rest, compile);
      var pair := CompileOne(paths[0], compile).value;
      var ps := CollectSpec(rest, compile).value;
      var c := CollectSpec(paths, compile).value;
      assert c == [pair] + ps;
      forall i | 0 <= i < |paths| ensures PairOf(paths[i], compile, c[i]) {
        if i > 0 {
          assert paths[i] == rest[i - 1] && c[i] == ps[i - 1];
        }
      }
    }
  }

  /** The build succeeds exactly when every path has a module name and compiles. */
  lemma {:induction false} CollectSucceeds(paths: seq<string>, compile: Compiler)
    ensures CollectSpec(paths, compile).Ok? <==> forall i :: 0 <= i < |paths| ==> Builds(paths[i], compile)
  {
    if paths != [] {
      var rest := paths[1..];
      CollectSucceeds(rest, compile);
      if Builds(paths[0], compile) && forall i :: 0 <= i < |rest| ==> Builds(rest[i], compile) {
        forall i | 0 <= i < |paths| ensures Builds(paths[i], compile) {
          if i > 0 {
            assert paths[i] == rest[i - 1];
          }
        }
      }
      if forall i :: 0 <= i < |paths| ==> Builds(paths[i], compile) {
        forall i | 0 <= i < |rest| ensures Builds(rest[i], compile) {
          assert rest[i] == paths[i + 1];
        }
      }
    }
  }
}
