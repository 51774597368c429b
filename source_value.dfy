/** Where a plugin comes from (`Source`): a repository identifier or a local directory, with
    its name, its display text and its conversions from and to guest values. */
module SourceValue {
  import opened Wrappers
  import opened Text
  import opened Shared
  import opened Paths
  import opened Guest

  /** A plugin source: a repository such as `owner/name`, or a local directory. */
  datatype Source = Repo(id: string) | Directory(path: string)

  /** A source that the string conversion can produce: a repository identifier must hold
      some character that is not whitespace. */
  predicate Acceptable(s: Source)
  {
    s.Repo? ==> !Blank(s.id)
  }

  /** Empty or all whitespace. */
  predicate Blank(s: string)
  {
    s == [] || AllWhitespace(s)
  }

  /** `Source::name`: the text after the last `/` of a repository identifier, or the last
      component of a directory when that is a normal name (otherwise empty). */
  function Name(s: Source): (n: string)
    ensures s.Directory? ==> n == "" || IsNormalName(n)
  {
    match s
    case Repo(r) =>
      var ps := SplitOn(r, "/");
      ps[|ps| - 1]
    case Directory(d) =>
      ComponentNamesNormal(d);
      var cs := Components(d);
      if |cs| > 0 && cs[|cs| - 1].Normal? then cs[|cs| - 1].name else ""
  }

  /** The name of a repository is free of `/` and is exactly what follows the last `/` (or
      the whole identifier when it has none). */
  lemma RepoNameIsLastSegment(r: string)
    ensures '/' !in Name(Repo(r))
    ensures exists front :: r == front + Name(Repo(r)) && (front == [] || front[|front| - 1] == '/')
  {
    var ps := SplitOn(r, "/");
    var last := ps[|ps| - 1];
    assert Name(Repo(r)) == last;
    SplitOnPiecesFree(r, '/');
    assert '/' !in last;
    JoinSplitOn(r, "/");
    JoinedLast(ps);
    var front :| Join(ps, "/") == front + last && (front == [] || front[|front| - 1] == '/');
    assert r == front + Name(Repo(r));
  }

  /** Joined with `/`, the last part follows either nothing or a `/`. */
  lemma JoinedLast(ps: seq<string>)
    requires |ps| >= 1
    ensures exists front :: Join(ps, "/") == front + ps[|ps| - 1] && (front == [] || front[|front| - 1] == '/')
  {
    var n := |ps|;
    var x := ps[n - 1];
    if n == 1 {
      assert Join(ps, "/") == [] + x;
    } else {
      var init := ps[..n - 1];
      assert init + [x] == ps;
      JoinSnoc(init, x, "/");
      var front := Join(init, "/") + "/";
      assert front[|front| - 1] == '/';
      assert Join(ps, "/") == front + x;
    }
  }

  /** `owner/name` is named `name`; an identifier without `/` is its own name. */
  lemma RepoNameOfOwned(owner: string, n: string)
    requires '/' !in owner && '/' !in n
    ensures Name(Repo(owner + "/" + n)) == n
    ensures Name(Repo(n)) == n
  {
    SplitOnConcat(owner, n, '/');
    SplitOnWithout(owner, '/');
    SplitOnWithout(n, '/');
  }

  /** A directory `base/n` is named `n`, and `base/..` has an empty name. */
  lemma DirectoryNameOfJoined(base: string, n: string)
    requires IsNormalName(n) && base != []
    ensures Name(Directory(JoinPath(base, n))) == n
    ensures Name(Directory(JoinPath(base, ".."))) == ""
  {
    JoinedNameIsLast(base, n);
    JoinedParentIsLast(base);
  }

  /** `impl Display for Source`: the identifier or the path as written, so that parsing the
      display text of an acceptable repository gives it back. */
  function Display(s: Source): (t: string)
    ensures s.Repo? && Acceptable(s) ==> FromStr(t) == Ok(s)
    ensures s.Directory? ==> t == s.path
  {
    match s
    case Repo(id) => id
    case Directory(d) => d
  }

  /** `Source::from_str`: any text with a character that is not whitespace is a repository
      identifier, kept as written. */
  function FromStr(s: string): (r: Result<Source, string>)
    ensures r.Ok? <==> exists i :: 0 <= i < |s| && !IsWhitespace(s[i])
    ensures r.Ok? ==> r.value == Repo(s) && Acceptable(r.value)
    ensures r.Err? ==> r.error == "value must not be empty or whitespace"
  {
    if Blank(s) then Err("value must not be empty or whitespace") else Ok(Repo(s))
  }

  /** A conversion error into `Source` with a message. */
  function ConversionError(from: string, message: string): LuaError
  {
    FromLuaConversionError(from, "Source", Some(message))
  }

  /** `Source::from_lua`: a string is parsed by `FromStr`; in a table the sequence entry `[1]`
      (read as a string) wins and is converted as a string would be, then the `dir` field (read
      as a string) gives a directory, and anything else is refused. */
  function FromLua(h: Heap, v: Value): (r: Result<Source, LuaError>)
    ensures r.Ok? ==> Acceptable(r.value)
    ensures r.Ok? ==> v.Str? || v.Table?
    decreases if v.Table? then 1 else 0
  {
    match v
    case Str(s) =>
      (match FromStr(s)
       case Ok(src) => Ok(src)
       case Err(e) => Err(ConversionError(TypeName(v), e)))
    case Table(t) =>
      (match CoerceString(Get(h, t, KInt(1)))
       case Some(s) => FromLua(h, Str(s))
       case None =>
         match CoerceString(Get(h, t, KStr("dir")))
         case Some(d) => Ok(Directory(d))
         case None => Err(ConversionError(TypeName(v), "expected [1] or `dir` key in table")))
    case _ => Err(ConversionError(TypeName(v), "expected a table or string value"))
  }

  /** A string converts exactly when it is not blank, to the repository it names. */
  lemma FromLuaString(h: Heap, s: string)
    ensures FromLua(h, Str(s)).Ok? <==> !Blank(s)
    ensures !Blank(s) ==> FromLua(h, Str(s)) == Ok(Repo(s))
    ensures Blank(s) ==>
      FromLua(h, Str(s)) == Err(ConversionError("string", "value must not be empty or whitespace"))
  {
  }

  /** In a table, an entry `[1]` readable as a string decides the outcome on its own: the
      other keys (`dir`, `file`, ...) are never looked at, even when `[1]` is blank. */
  lemma FromLuaIndexFirst(h: Heap, t: TableId, s: string)
    requires CoerceString(Get(h, t, KInt(1))) == Some(s)
    ensures FromLua(h, Table(t)) == FromLua(h, Str(s))
  {
  }

  /** Without a usable `[1]`, a `dir` entry readable as a string gives that directory. */
  lemma FromLuaDir(h: Heap, t: TableId, d: string)
    requires CoerceString(Get(h, t, KInt(1))).None?
    requires CoerceString(Get(h, t, KStr("dir"))) == Some(d)
    ensures FromLua(h, Table(t)) == Ok(Directory(d))
  {
  }

  /** A table with neither a usable `[1]` nor a usable `dir` is refused, so a table holding
      only a `file` key is not a source. */
  lemma FromLuaTableRefused(h: Heap, t: TableId)
    requires CoerceString(Get(h, t, KInt(1))).None? && CoerceString(Get(h, t, KStr("dir"))).None?
    ensures FromLua(h, Table(t)) == Err(ConversionError("table", "expected [1] or `dir` key in table"))
  {
  }

  /** Values other than strings and tables are refused, naming their type. */
  lemma FromLuaOtherRefused(h: Heap, v: Value)
    requires !v.Str? && !v.Table?
    ensures FromLua(h, v) == Err(ConversionError(TypeName(v), "expected a table or string value"))
  {
  }

  /** The conversion of a table reads only that table. */
  lemma FromLuaFrame(h: Heap, h': Heap, v: Value)
    requires v.Table? ==> v.id in h.tables && v.id in h'.tables && h'.tables[v.id] == h.tables[v.id]
    ensures FromLua(h', v) == FromLua(h, v)
  {
    if v.Table? {
      assert Get(h', v.id, KInt(1)) == Get(h, v.id, KInt(1));
      assert Get(h', v.id, KStr("dir")) == Get(h, v.id, KStr("dir"));
    }
  }

  /** `Source::into_lua`: a repository becomes a string, a directory a new table `{dir = path}`. */
  function IntoLua(h: Heap, s: Source): (r: (Value, Heap))
    requires WellFormed(h)
    ensures WellFormed(r.1) && Extends(h, r.1) && InHeap(r.1, r.0)
    ensures s.Repo? ==> r == (Str(s.id), h)
    ensures s.Directory? ==>
      && r.0 == Table(h.next) && h.next !in h.tables
      && r.1.tables[h.next] == map[KStr("dir") := Str(s.path)]
  {
    match s
    case Repo(id) => (Str(id), h)
    case Directory(p) =>
      var (t, h1) := NewTable(h);
      NewTableValid(h);
      SetValid(h1, t, KStr("dir"), Str(p));
      (Table(t), Set(h1, t, KStr("dir"), Str(p)))
  }

  /** Converting an acceptable source to a guest value and back gives the source again. */
  lemma IntoFromRoundTrip(h: Heap, s: Source)
    requires WellFormed(h) && Acceptable(s)
    ensures FromLua(IntoLua(h, s).1, IntoLua(h, s).0) == Ok(s)
  {
    var (v, h') := IntoLua(h, s);
    if s.Directory? {
      assert Get(h', v.id, KInt(1)) == Nil;
      assert Get(h', v.id, KStr("dir")) == Str(s.path);
    }
  }
}
