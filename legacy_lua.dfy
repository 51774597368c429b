/** The older interpreter setup (`src/lua.rs`): `create_module` with its own error message,
    `preload_module` into `package.preload`, and a `create_state` that preloads each builtin
    and binds it by running `dfim.<name>=require('<name>')`. */
module LegacyLua {
  import opened Wrappers
  import opened Guest
  import Namespace

  /** The error of `create_module` when `package.loaded[name]` holds something other than a
      table. */
  function ModuleExists(name: string, found: Value): Namespace.Failure
  {
    Namespace.Bail("cannot create module `" + name + "`, value exists with type `" + TypeName(found) + "`")
  }

  /** `create_module(name)`: the table `package.loaded[name]`, made and stored there when the
      entry is nil. */
  function CreateModuleSpec(h: Heap, g: TableId, name: string): (r: (Result<TableId, Namespace.Failure>, Heap))
    requires WellFormed(h) && g in h.tables
    ensures WellFormed(r.1) && Namespace.GrowsOnlyAbsent(h, r.1)
    ensures r.0.Ok? ==>
      && PackageTable(h, g, "loaded").Ok? && r.0.value in r.1.tables
      && Get(r.1, PackageTable(h, g, "loaded").value, KStr(name)) == Table(r.0.value)
    ensures r.0.Err? ==> r.1 == h
  {
    match PackageTable(h, g, "loaded")
    case Err(e) => (Err(Namespace.LuaFailure(e)), h)
    case Ok(l) =>
      match Get(h, l, KStr(name))
      case Nil =>
        var (m, h1) := NewTable(h);
        NewTableValid(h);
        SetValid(h1, l, KStr(name), Table(m));
        (Ok(m), Set(h1, l, KStr(name), Table(m)))
      case Table(m) => (Ok(m), h)
      case other => (Err(ModuleExists(name, other)), h)
  }

  /** On an absent entry, a new empty table is made, stored and returned. */
  lemma CreateModuleAbsent(h: Heap, g: TableId, l: TableId, name: string)
    requires WellFormed(h) && g in h.tables && PackageTable(h, g, "loaded") == Ok(l)
    requires Get(h, l, KStr(name)) == Nil
    ensures var (r, h') := CreateModuleSpec(h, g, name);
      && r == Ok(h.next) && h.next !in h.tables && h'.tables[h.next] == map[]
      && h'.tables.Keys == h.tables.Keys + {h.next}
      && forall t, k :: t in h.tables && (t, k) != (l, KStr(name)) ==> Get(h', t, k) == Get(h, t, k)
  {
  }

  /** On an entry holding a table, that table is returned and nothing changes. */
  lemma CreateModuleExisting(h: Heap, g: TableId, l: TableId, name: string, m: TableId)
    requires WellFormed(h) && g in h.tables && PackageTable(h, g, "loaded") == Ok(l)
    requires Get(h, l, KStr(name)) == Table(m)
    ensures CreateModuleSpec(h, g, name) == (Ok(m), h)
  {
  }

  /** On an entry of any other type, the error names the module and that type. */
  lemma CreateModuleRefused(h: Heap, g: TableId, l: TableId, name: string)
    requires WellFormed(h) && g in h.tables && PackageTable(h, g, "loaded") == Ok(l)
    requires var v := Get(h, l, KStr(name)); !v.Nil? && !v.Table?
    ensures CreateModuleSpec(h, g, name) == (Err(ModuleExists(name, Get(h, l, KStr(name)))), h)
  {
  }

  /** A second call returns the table of the first and changes nothing. */
  lemma CreateModuleIdempotent(h: Heap, g: TableId, name: string)
    requires WellFormed(h) && g in h.tables
    ensures var (r, h') := CreateModuleSpec(h, g, name);
      r.Ok? ==> CreateModuleSpec(h', g, name) == (r, h')
  {
    var (r, h') := CreateModuleSpec(h, g, name);
    if r.Ok? {
      var l := PackageTable(h, g, "loaded").value;
      assert Get(h', g, KStr("package")) == Get(h, g, KStr("package"));
      var p := Get(h, g, KStr("package")).id;
      assert Get(h', p, KStr("loaded")) == Get(h, p, KStr("loaded"));
    }
  }

  /** The older `create_module` behaves as the newer one (`create_table_in` on
      `package.loaded`) in every case, except for the wording of its error message. */
  lemma CreateModuleAgrees(h: Heap, g: TableId, name: string)
    requires WellFormed(h) && g in h.tables
    ensures CreateModuleSpec(h, g, name).1 == Namespace.CreateModuleSpec(h, g, name).1
    ensures CreateModuleSpec(h, g, name).0.Ok? <==> Namespace.CreateModuleSpec(h, g, name).0.Ok?
    ensures CreateModuleSpec(h, g, name).0.Ok? ==>
      CreateModuleSpec(h, g, name).0 == Namespace.CreateModuleSpec(h, g, name).0
    ensures PackageTable(h, g, "loaded").Err? ==>
      CreateModuleSpec(h, g, name).0 == Namespace.CreateModuleSpec(h, g, name).0
  {
  }

  // ---------------------------------------------------------------------------------------
  // preload_module

  /** Compiling a chunk (`lua.load(data).into_function()`): the handle of the function it
      becomes, or the guest's syntax error. */
  type Compiler = string -> Result<nat, LuaError>

  /** `preload_module(name, data)`: the chunk compiled to a function and stored at
      `package.preload[name]`. */
  function PreloadSpec(h: Heap, g: TableId, name: string, data: string, compile: Compiler): (r: (Result<(), Namespace.Failure>, Heap))
    requires WellFormed(h) && g in h.tables
    ensures WellFormed(r.1) && r.1.tables.Keys == h.tables.Keys && r.1.next == h.next
    ensures r.0.Err? ==> r.1 == h
  {
    match PackageTable(h, g, "preload")
    case Err(e) => (Err(Namespace.LuaFailure(e)), h)
    case Ok(pre) =>
      match compile(data)
      case Err(e) => (Err(Namespace.LuaFailure(e)), h)
      case Ok(f) =>
        SetValid(h, pre, KStr(name), Function(f));
        (Ok(()), Set(h, pre, KStr(name), Function(f)))
  }

  /** A preload succeeds exactly when `package.preload` is a table and the chunk compiles. It
      then binds `name` there to the compiled function and changes no other entry. */
  lemma PreloadStores(h: Heap, g: TableId, name: string, data: string, compile: Compiler)
    requires WellFormed(h) && g in h.tables
    ensures var (r, h') := PreloadSpec(h, g, name, data, compile);
      && (r.Ok? <==> PackageTable(h, g, "preload").Ok? && compile(data).Ok?)
      && (r.Ok? ==>
        var pre := PackageTable(h, g, "preload").value;
        && Get(h', pre, KStr(name)) == Function(compile(data).value)
        && forall t: TableId, k: Key :: (t, k) != (pre, KStr(name)) ==> Get(h', t, k) == Get(h, t, k))
  {
  }

  /** Preloading again under the same name replaces the earlier function, leaving the state
      a single preload would, as long as `package.preload` is neither the globals table nor
      `package` itself. */
  lemma PreloadReplaces(h: Heap, g: TableId, p: TableId, pre: TableId, name: string, d1: string, d2: string, compile: Compiler)
    requires WellFormed(h) && g in h.tables
    requires Get(h, g, KStr("package")) == Table(p) && Get(h, p, KStr("preload")) == Table(pre)
    requires pre != g && pre != p && compile(d1).Ok? && compile(d2).Ok?
    ensures var h1 := PreloadSpec(h, g, name, d1, compile).1;
      PreloadSpec(h1, g, name, d2, compile) == PreloadSpec(h, g, name, d2, compile)
  {
    var h1 := PreloadSpec(h, g, name, d1, compile).1;
    assert Get(h1, g, KStr("package")) == Table(p);
    assert Get(h1, p, KStr("preload")) == Table(pre);
    var v := Function(compile(d2).value);
    assert h1.tables[pre][KStr(name) := v] == h.tables[pre][KStr(name) := v];
    assert h1.tables[pre := h1.tables[pre][KStr(name) := v]] == h.tables[pre := h.tables[pre][KStr(name) := v]];
  }

  // ---------------------------------------------------------------------------------------
  // create_state

  /** The statement that binds a builtin: `dfim.<name>=require('<name>')`. It assigns to the
      builtin's name under the host module and requires the module by its own name. */
  function BindStatement(name: string): (s: string)
    ensures var n := Namespace.BuiltinName(name);
      && |s| == |n| + |name| + 12 && s[..|n|] == n && s[|n|..|n| + 10] == "=require('"
      && s[|n| + 10..|s| - 2] == name && s[|s| - 2..] == "')"
  {
    Namespace.ModName + "." + name + "=require('" + name + "')"
  }

  /** Running a chunk of text (`lua.load(text).exec()`) in an interpreter whose globals table
      is 0: the outcome and the state after. */
  type Exec = (Heap, string) -> (Result<(), LuaError>, Heap)

  /** What running `dfim.<name>=require('<name>')` may do to the state `h` when `name` holds
      no `.`: keep every table, fill only entries that were nil (as `require` does in
      `package.loaded`), and overwrite `<name>` in the table the global `dfim` held. */
  ghost predicate BindEffect(h: Heap, h': Heap, name: string)
  {
    && h.next <= h'.next
    && (forall t :: t in h.tables ==> t in h'.tables)
    && (forall t, k :: t in h.tables && Get(h, t, k) != Nil && !(Get(h, 0, KStr(Namespace.ModName)) == Table(t) && k == KStr(name)) ==>
        Get(h', t, k) == Get(h, t, k))
  }

  /** The runner keeps the state well-formed and every table in it on the binding
      statements, whether they succeed or not, and on those for a name without `.` has
      only the effect above. */
  ghost predicate ExecSound(exec: Exec)
  {
    forall h, name :: WellFormed(h) && 0 in h.tables ==>
      && WellFormed(exec(h, BindStatement(name)).1)
      && (forall t :: t in h.tables ==> t in exec(h, BindStatement(name)).1.tables)
      && ('.' !in name ==> BindEffect(h, exec(h, BindStatement(name)).1, name))
  }

  /** One pass of the loop of `create_state`: preload the builtin, then run its binding
      statement; a failure of either stops the pass with it. */
  function BindStep(h: Heap, b: (string, string), compile: Compiler, exec: Exec): (r: (Result<(), Namespace.Failure>, Heap))
    requires WellFormed(h) && 0 in h.tables && ExecSound(exec)
    ensures WellFormed(r.1) && 0 in r.1.tables
  {
    var (name, data) := b;
    match PreloadSpec(h, 0, name, data, compile)
    case (Err(e), h1) => (Err(e), h1)
    case (Ok(_), h1) =>
      match exec(h1, BindStatement(name))
      case (Err(e), h2) => (Err(Namespace.LuaFailure(e)), h2)
      case (Ok(_), h2) => (Ok(()), h2)
  }

  /** A pass succeeds exactly when the chunk is preloaded and its binding statement then
      runs; the statement runs on the state where `package.preload[name]` already holds the
      compiled chunk, and a chunk that does not compile stops the pass before it, with the
      state unchanged. */
  lemma BindStepOrder(h: Heap, b: (string, string), compile: Compiler, exec: Exec)
    requires WellFormed(h) && 0 in h.tables && ExecSound(exec)
    ensures var (r, h') := BindStep(h, b, compile, exec);
      var (r1, h1) := PreloadSpec(h, 0, b.0, b.1, compile);
      && (r.Ok? <==> r1.Ok? && exec(h1, BindStatement(b.0)).0.Ok?)
      && (r1.Ok? ==>
        && Get(h1, PackageTable(h, 0, "preload").value, KStr(b.0)) == Function(compile(b.1).value)
        && h' == exec(h1, BindStatement(b.0)).1)
      && (compile(b.1).Err? ==> r.Err? && h' == h)
  {
    PreloadStores(h, 0, b.0, b.1, compile);
  }

  /** The pass as a value of type `Namespace.Pass`. */
  function BindPass(compile: Compiler, exec: Exec): (pass: Namespace.Pass<(string, string), ()>)
    requires ExecSound(exec)
    ensures Namespace.PassSound(pass, 0)
  {
    (h: Heap, b: (string, string)) requires WellFormed(h) && 0 in h.tables => BindStep(h, b, compile, exec)
  }

  /** The loop of `create_state` over the builtin `(name, source)` pairs: one pass each, and
      the first failure stops it. */
  function InstallSpec(h: Heap, builtins: seq<(string, string)>, compile: Compiler, exec: Exec): (r: (Result<(), Namespace.Failure>, Heap))
    requires WellFormed(h) && 0 in h.tables && ExecSound(exec)
    ensures WellFormed(r.1) && 0 in r.1.tables
  {
    Namespace.RunPasses(h, 0, builtins, BindPass(compile, exec))
  }

  /** In a successful loop, on every pass `i`, `package.preload[name]` holds the compiled
      chunk when the binding statement runs, and the statement succeeds. */
  lemma InstallRanEach(h: Heap, builtins: seq<(string, string)>, compile: Compiler, exec: Exec, i: nat)
    requires WellFormed(h) && 0 in h.tables && ExecSound(exec)
    requires InstallSpec(h, builtins, compile, exec).0.Ok? && i < |builtins|
    ensures Namespace.RunPrefix(h, 0, builtins, BindPass(compile, exec), i).Some?
    ensures var hi := Namespace.RunPrefix(h, 0, builtins, BindPass(compile, exec), i).value;
      var (name, data) := builtins[i];
      && PackageTable(hi, 0, "preload").Ok? && compile(data).Ok?
      && var h1 := PreloadSpec(hi, 0, name, data, compile).1;
      && Get(h1, PackageTable(hi, 0, "preload").value, KStr(name)) == Function(compile(data).value)
      && exec(h1, BindStatement(name)).0.Ok?
  {
    Namespace.RunEach(h, 0, builtins, BindPass(compile, exec), i);
    var hi := Namespace.RunPrefix(h, 0, builtins, BindPass(compile, exec), i).value;
    BindStepOrder(hi, builtins[i], compile, exec);
    PreloadStores(hi, 0, builtins[i].0, builtins[i].1, compile);
  }

  /** The module `dfim` with its metadata, bound as a global, using the older
      `create_module`. */
  function PreludeSpec(h0: Heap, meta: Namespace.Metadata): (r: (Result<TableId, Namespace.Failure>, Heap))
    requires WellFormed(h0) && 0 in h0.tables
    ensures WellFormed(r.1) && 0 in r.1.tables
  {
    match CreateModuleSpec(h0, 0, Namespace.ModName)
    case (Err(e), h1) => (Err(e), h1)
    case (Ok(m), h1) =>
      var h2 := Namespace.WithMetadata(h1, m, meta);
      SetValid(h2, 0, KStr(Namespace.ModName), Table(m));
      (Ok(m), Set(h2, 0, KStr(Namespace.ModName), Table(m)))
  }

  /** The older prelude and the newer one (before its native API) build the same state
      whenever `package.loaded.dfim` is nil or a table. */
  lemma PreludeAgrees(h0: Heap, meta: Namespace.Metadata)
    requires WellFormed(h0) && 0 in h0.tables
    requires var l := PackageTable(h0, 0, "loaded");
      l.Ok? ==> Get(h0, l.value, KStr(Namespace.ModName)).Nil? || Get(h0, l.value, KStr(Namespace.ModName)).Table?
    ensures PreludeSpec(h0, meta) == Namespace.PreludeSpec(h0, meta)
  {
    CreateModuleAgrees(h0, 0, Namespace.ModName);
  }

  /** `create_state` of `src/lua.rs`: a fresh interpreter, the prelude, then the builtins. */
  function CreateStateSpec(meta: Namespace.Metadata, builtins: seq<(string, string)>, compile: Compiler, exec: Exec): (r: (Result<(), Namespace.Failure>, Heap))
    requires ExecSound(exec)
    ensures WellFormed(r.1) && 0 in r.1.tables
  {
    match PreludeSpec(InitialHeap(), meta)
    case (Err(e), h) => (Err(e), h)
    case (Ok(_), h) => InstallSpec(h, builtins, compile, exec)
  }

  /** `package.preload` is the table `q`, distinct from the globals, `package` and the
      `loaded` table. */
  predicate PreloadApart(h: Heap, p: TableId, q: TableId, l: TableId)
  {
    Get(h, p, KStr("preload")) == Table(q) && q != 0 && q != p && q != l
  }

  /** A preload writes only into `package.preload`, so it keeps the aliasing of `dfim`. */
  lemma PreloadKeepsAlias(h: Heap, name: string, data: string, compile: Compiler, p: TableId, q: TableId, l: TableId, m: TableId)
    requires WellFormed(h) && 0 in h.tables
    requires Namespace.Aliased(h, 0, p, l, m) && PreloadApart(h, p, q, l)
    ensures var h1 := PreloadSpec(h, 0, name, data, compile).1;
      Namespace.Aliased(h1, 0, p, l, m) && PreloadApart(h1, p, q, l)
  {
    assert PackageTable(h, 0, "preload") == Ok(q);
  }

  /** A binding statement overwrites only an entry of the `dfim` table, so it keeps the
      aliasing of `dfim`. */
  lemma BindKeepsAlias(h: Heap, h': Heap, name: string, p: TableId, q: TableId, l: TableId, m: TableId)
    requires 0 in h.tables && p in h.tables && l in h.tables
    requires Namespace.Aliased(h, 0, p, l, m) && PreloadApart(h, p, q, l) && BindEffect(h, h', name)
    ensures Namespace.Aliased(h', 0, p, l, m) && PreloadApart(h', p, q, l)
  {
    assert Get(h', 0, KStr("package")) == Get(h, 0, KStr("package"));
    assert Get(h', p, KStr("loaded")) == Get(h, p, KStr("loaded"));
    assert Get(h', p, KStr("preload")) == Get(h, p, KStr("preload"));
    assert Get(h', 0, KStr(Namespace.ModName)) == Get(h, 0, KStr(Namespace.ModName));
    assert Get(h', l, KStr(Namespace.ModName)) == Get(h, l, KStr(Namespace.ModName));
  }

  /** The state a pass leaves: the one after the binding statement when the preload
      succeeds, else the one the preload left. */
  lemma BindStepState(h: Heap, b: (string, string), compile: Compiler, exec: Exec)
    requires WellFormed(h) && 0 in h.tables && ExecSound(exec)
    ensures var (r1, h1) := PreloadSpec(h, 0, b.0, b.1, compile);
      BindStep(h, b, compile, exec).1 == if r1.Ok? then exec(h1, BindStatement(b.0)).1 else h1
  {
  }

  /** A pass for a builtin whose name holds no `.` keeps the aliasing of `dfim`, whether or
      not it fails. */
  lemma BindStepKeepsAlias(h: Heap, b: (string, string), compile: Compiler, exec: Exec, p: TableId, q: TableId, l: TableId, m: TableId)
    requires WellFormed(h) && 0 in h.tables && ExecSound(exec) && '.' !in b.0
    requires Namespace.Aliased(h, 0, p, l, m) && PreloadApart(h, p, q, l)
    ensures var h' := BindStep(h, b, compile, exec).1;
      Namespace.Aliased(h', 0, p, l, m) && PreloadApart(h', p, q, l)
  {
    var (name, data) := b;
    var (r1, h1) := PreloadSpec(h, 0, name, data, compile);
    assert Namespace.Aliased(h1, 0, p, l, m) && PreloadApart(h1, p, q, l) by {
      PreloadKeepsAlias(h, name, data, compile, p, q, l, m);
    }
    if r1.Ok? {
      var h2 := exec(h1, BindStatement(name)).1;
      assert Namespace.Aliased(h2, 0, p, l, m) && PreloadApart(h2, p, q, l) by {
        assert p in h1.tables && l in h1.tables by {
          assert Get(h1, 0, KStr("package")) == Table(p) && Get(h1, p, KStr("loaded")) == Table(l);
        }
        assert BindEffect(h1, h2, name);
        BindKeepsAlias(h1, h2, name, p, q, l, m);
      }
    }
    BindStepState(h, b, compile, exec);
  }

  /** The state the older builtin loop keeps: `dfim` aliased and `package.preload` apart. */
  ghost predicate Apart(h: Heap, p: TableId, q: TableId, l: TableId, m: TableId)
  {
    WellFormed(h) && 0 in h.tables && Namespace.Aliased(h, 0, p, l, m) && PreloadApart(h, p, q, l)
  }

  /** A pass keeps that state for every builtin whose name holds no `.`. */
  ghost predicate PassKeepsApart(pass: Namespace.Pass<(string, string), ()>, p: TableId, q: TableId, l: TableId, m: TableId)
    requires Namespace.PassSound(pass, 0)
  {
    forall h, b: (string, string) :: Apart(h, p, q, l, m) && '.' !in b.0 ==> Apart(pass(h, b).1, p, q, l, m)
  }

  /** A loop of such passes over builtins whose names hold no `.` keeps the state so,
      whether or not a pass fails. */
  lemma {:induction false} RunKeepsApart(h: Heap, bs: seq<(string, string)>, pass: Namespace.Pass<(string, string), ()>, p: TableId, q: TableId, l: TableId, m: TableId)
    requires Apart(h, p, q, l, m) && Namespace.PassSound(pass, 0) && PassKeepsApart(pass, p, q, l, m)
    requires forall j :: 0 <= j < |bs| ==> '.' !in bs[j].0
    ensures Apart(Namespace.RunPasses(h, 0, bs, pass).1, p, q, l, m)
    decreases |bs|
  {
    if bs != [] && pass(h, bs[0]).0.Ok? {
      assert forall j :: 0 <= j < |bs[1..]| ==> bs[1..][j] == bs[j + 1];
      RunKeepsApart(pass(h, bs[0]).1, bs[1..], pass, p, q, l, m);
    }
  }

  /** The builtin loop keeps the global `dfim` and `package.loaded.dfim` the same table when
      no builtin's name holds a `.`, whether or not a pass fails. */
  lemma InstallKeepsAlias(h: Heap, builtins: seq<(string, string)>, compile: Compiler, exec: Exec, p: TableId, q: TableId, l: TableId, m: TableId)
    requires ExecSound(exec) && Apart(h, p, q, l, m)
    requires forall j :: 0 <= j < |builtins| ==> '.' !in builtins[j].0
    ensures Apart(InstallSpec(h, builtins, compile, exec).1, p, q, l, m)
  {
    var pass := BindPass(compile, exec);
    forall h0, b: (string, string) | Apart(h0, p, q, l, m) && '.' !in b.0
      ensures Apart(pass(h0, b).1, p, q, l, m)
    {
      BindStepKeepsAlias(h0, b, compile, exec, p, q, l, m);
    }
    RunKeepsApart(h, builtins, pass, p, q, l, m);
  }

  /** After the older `create_state`, the global `dfim` and `package.loaded.dfim` are the
      same table, when no builtin's name holds a `.`. */
  lemma CreateStateAliases(meta: Namespace.Metadata, builtins: seq<(string, string)>, compile: Compiler, exec: Exec)
    requires ExecSound(exec)
    requires forall j :: 0 <= j < |builtins| ==> '.' !in builtins[j].0
    ensures Namespace.Aliased(CreateStateSpec(meta, builtins, compile, exec).1, 0, 1, 2, 5)
  {
    var h0 := InitialHeap();
    assert Get(h0, 0, KStr("package")) == Table(1) && Get(h0, 1, KStr("loaded")) == Table(2);
    assert Get(h0, 2, KStr(Namespace.ModName)) == Nil;
    PreludeAgrees(h0, meta);
    Namespace.PreludeAliased(h0, meta, 1, 2);
    var h := PreludeSpec(h0, meta).1;
    assert PreloadApart(h, 1, 3, 2) by {
      assert h.tables[1] == h0.tables[1];
    }
    InstallKeepsAlias(h, builtins, compile, exec, 1, 3, 2, 5);
  }

  // ---------------------------------------------------------------------------------------
  // the stateful operations

  /** `create_module` on the interpreter. */
  method CreateModule(lua: Lua, name: string) returns (r: Result<TableId, Namespace.Failure>)
    requires lua.Valid()
    modifies lua
    ensures lua.Valid() && (r, lua.heap) == CreateModuleSpec(old(lua.heap), lua.globals, name)
  {
    var loaded := PackageTable(lua.heap, lua.globals, "loaded");
    if loaded.Err? {
      return Err(Namespace.LuaFailure(loaded.error));
    }
    var l := loaded.value;
    var found := Get(lua.heap, l, KStr(name));
    match found
    case Nil =>
      var (m, h1) := NewTable(lua.heap);
      NewTableValid(lua.heap);
      lua.heap := Set(h1, l, KStr(name), Table(m));
      r := Ok(m);
    case Table(m) =>
      r := Ok(m);
    case _ =>
      r := Err(ModuleExists(name, found));
  }

  /** `preload_module` on the interpreter. */
  method PreloadModule(lua: Lua, name: string, data: string, compile: Compiler) returns (r: Result<(), Namespace.Failure>)
    requires lua.Valid()
    modifies lua
    ensures lua.Valid() && (r, lua.heap) == PreloadSpec(old(lua.heap), lua.globals, name, data, compile)
  {
    var preload := PackageTable(lua.heap, lua.globals, "preload");
    if preload.Err? {
      return Err(Namespace.LuaFailure(preload.error));
    }
    var f := compile(data);
    if f.Err? {
      return Err(Namespace.LuaFailure(f.error));
    }
    SetValid(lua.heap, preload.value, KStr(name), Function(f.value));
    lua.heap := Set(lua.heap, preload.value, KStr(name), Function(f.value));
    r := Ok(());
  }

  /** The first part of the older `create_state` on a fresh interpreter. */
  method Prelude(lua: Lua, meta: Namespace.Metadata) returns (r: Result<TableId, Namespace.Failure>)
    requires lua.Valid() && lua.globals == 0
    modifies lua
    ensures lua.Valid() && (r, lua.heap) == PreludeSpec(old(lua.heap), meta)
  {
    var m := CreateModule(lua, Namespace.ModName);
    if m.Err? {
      return Err(m.error);
    }
    lua.heap := Namespace.WithMetadata(lua.heap, m.value, meta);
    SetValid(lua.heap, lua.globals, KStr(Namespace.ModName), Table(m.value));
    lua.heap := Set(lua.heap, lua.globals, KStr(Namespace.ModName), Table(m.value));
    r := m;
  }

  /** The loop of the older `create_state` over the builtins. */
  method InstallBuiltins(lua: Lua, builtins: seq<(string, string)>, compile: Compiler, exec: Exec) returns (r: Result<(), Namespace.Failure>)
    requires lua.Valid() && lua.globals == 0 && ExecSound(exec)
    modifies lua
    ensures lua.Valid() && (r, lua.heap) == InstallSpec(old(lua.heap), builtins, compile, exec)
  {
    ghost var h := lua.heap;
    var i := 0;
    while i < |builtins|
      invariant 0 <= i <= |builtins|
      invariant lua.Valid() && lua.globals == 0
      invariant InstallSpec(h, builtins, compile, exec) == InstallSpec(lua.heap, builtins[i..], compile, exec)
    {
      assert builtins[i..][0] == builtins[i] && builtins[i..][1..] == builtins[i + 1..];
      var (name, data) := builtins[i];
      var pre := PreloadModule(lua, name, data, compile);
      if pre.Err? {
        return Err(pre.error);
      }
      var (ran, h2) := exec(lua.heap, BindStatement(name));
      lua.heap := h2;
      if ran.Err? {
        return Err(Namespace.LuaFailure(ran.error));
      }
      i := i + 1;
    }
    r := Ok(());
  }

  /** `create_state` of `src/lua.rs`. */
  method CreateState(meta: Namespace.Metadata, builtins: seq<(string, string)>, compile: Compiler, exec: Exec) returns (lua: Lua, r: Result<(), Namespace.Failure>)
    requires ExecSound(exec)
    ensures fresh(lua) && lua.Valid() && lua.globals == 0
    ensures (r, lua.heap) == CreateStateSpec(meta, builtins, compile, exec)
  {
    lua := new Lua();
    var m := Prelude(lua, meta);
    if m.Err? {
      return lua, Err(m.error);
    }
    r := InstallBuiltins(lua, builtins, compile, exec);
  }
}
