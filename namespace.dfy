/** The namespace builder of the interpreter state: create-or-return tables, modules in
    `package.loaded`, fields at dotted paths, and the installation of the builtin modules
    under the host module `dfim`. */
module Namespace {
  import opened Wrappers
  import opened Shared
  import opened Paths
  import opened Guest

  /** The name of the host module: a global and an entry of `package.loaded`. */
  const ModName: string := "dfim"

  /** An error of the host code (`anyhow::Error`): a guest error passed on, or a message. */
  datatype Failure = LuaFailure(e: LuaError) | Bail(message: string)

  /** `h'` differs from `h` only by new tables and by entries that were nil: every table stays
      and every non-nil entry keeps its value. */
  ghost predicate GrowsOnlyAbsent(h: Heap, h': Heap)
  {
    && h.next <= h'.next
    && (forall t :: t in h.tables ==> t in h'.tables)
    && (forall t, k :: t in h.tables && Get(h, t, k) != Nil ==> Get(h', t, k) == Get(h, t, k))
  }

  lemma GrowsTransitive(h: Heap, h': Heap, h'': Heap)
    requires GrowsOnlyAbsent(h, h') && GrowsOnlyAbsent(h', h'')
    ensures GrowsOnlyAbsent(h, h'')
  {
  }

  lemma ExtendsGrows(h: Heap, h': Heap)
    requires Extends(h, h')
    ensures GrowsOnlyAbsent(h, h')
  {
    forall t, k | t in h.tables && Get(h, t, k) != Nil
      ensures Get(h', t, k) == Get(h, t, k)
    {
    }
  }

  // ---------------------------------------------------------------------------------------
  // create_table_in and create_module

  /** The error of `create_table_in` when `name` holds something other than a table. */
  function TableExists(name: string, found: Value): Failure
  {
    Bail("cannot create table `" + name + "`, value exists with type `" + TypeName(found) + "`")
  }

  /** `create_table_in(name, root)`: the table at `root[name]`, made and stored there when the
      entry is nil. */
  function CreateTableInSpec(h: Heap, root: TableId, name: string): (r: (Result<TableId, Failure>, Heap))
    requires WellFormed(h) && root in h.tables
    ensures WellFormed(r.1) && GrowsOnlyAbsent(h, r.1)
    ensures r.0.Ok? ==> r.0.value in r.1.tables && Get(r.1, root, KStr(name)) == Table(r.0.value)
    ensures r.0.Err? <==> !(Get(h, root, KStr(name)).Nil? || Get(h, root, KStr(name)).Table?)
    ensures r.0.Err? ==> r.1 == h
  {
    match Get(h, root, KStr(name))
    case Nil =>
      var (m, h1) := NewTable(h);
      NewTableValid(h);
      SetValid(h1, root, KStr(name), Table(m));
      (Ok(m), Set(h1, root, KStr(name), Table(m)))
    case Table(m) => (Ok(m), h)
    case other => (Err(TableExists(name, other)), h)
  }

  /** On an absent entry, a new empty table is stored there and nothing else changes. */
  lemma CreateTableInAbsent(h: Heap, root: TableId, name: string)
    requires WellFormed(h) && root in h.tables && Get(h, root, KStr(name)) == Nil
    ensures var (r, h') := CreateTableInSpec(h, root, name);
      && r == Ok(h.next) && h.next !in h.tables && h'.tables[h.next] == map[]
      && h'.tables.Keys == h.tables.Keys + {h.next}
      && forall t, k :: t in h.tables && (t, k) != (root, KStr(name)) ==> Get(h', t, k) == Get(h, t, k)
  {
  }

  /** On an entry holding a table, that same table is returned and nothing changes. */
  lemma CreateTableInExisting(h: Heap, root: TableId, name: string, m: TableId)
    requires WellFormed(h) && root in h.tables && Get(h, root, KStr(name)) == Table(m)
    ensures CreateTableInSpec(h, root, name) == (Ok(m), h)
  {
  }

  /** On an entry holding anything else, the error names the key and the type found. */
  lemma CreateTableInRefused(h: Heap, root: TableId, name: string)
    requires WellFormed(h) && root in h.tables
    requires var v := Get(h, root, KStr(name)); !v.Nil? && !v.Table?
    ensures CreateTableInSpec(h, root, name) == (Err(TableExists(name, Get(h, root, KStr(name)))), h)
  {
  }

  /** A second call returns the table of the first and changes nothing. */
  lemma CreateTableInIdempotent(h: Heap, root: TableId, name: string)
    requires WellFormed(h) && root in h.tables
    ensures var (r, h') := CreateTableInSpec(h, root, name);
      r.Ok? ==> CreateTableInSpec(h', root, name) == (r, h')
  {
  }

  /** `create_module(name)`: `create_table_in` on `package.loaded`. */
  function CreateModuleSpec(h: Heap, g: TableId, name: string): (r: (Result<TableId, Failure>, Heap))
    requires WellFormed(h) && g in h.tables
    ensures WellFormed(r.1) && GrowsOnlyAbsent(h, r.1)
    ensures r.0.Ok? ==>
      && r.0.value in r.1.tables && PackageTable(h, g, "loaded").Ok?
      && Get(r.1, PackageTable(h, g, "loaded").value, KStr(name)) == Table(r.0.value)
  {
    match PackageTable(h, g, "loaded")
    case Err(e) => (Err(LuaFailure(e)), h)
    case Ok(l) => CreateTableInSpec(h, l, name)
  }

  // ---------------------------------------------------------------------------------------
  // set_nested_field

  /** The table reached from `t` through the string keys `path`, when each step is a table. */
  function WalkTables(h: Heap, t: TableId, path: seq<string>): Option<TableId>
    decreases |path|
  {
    if path == [] then Some(t)
    else
      match Get(h, t, KStr(path[0]))
      case Table(u) => WalkTables(h, u, path[1..])
      case _ => None
  }

  /** The error of `set_nested_field` on an empty middle segment. */
  const EmptyPart: Failure := Bail("module parts must not be empty")

  /** The loop of `set_nested_field` over the middle segments: each must be non-empty and is
      created or located by `create_table_in` in the table of the previous one. */
  function DescendSpec(h: Heap, head: TableId, mids: seq<string>): (r: (Result<TableId, Failure>, Heap))
    requires WellFormed(h) && head in h.tables
    ensures WellFormed(r.1) && GrowsOnlyAbsent(h, r.1)
    ensures r.0.Ok? ==> r.0.value in r.1.tables && WalkTables(r.1, head, mids) == Some(r.0.value)
    ensures r.0.Ok? ==> forall i :: 0 <= i < |mids| ==> mids[i] != ""
    decreases |mids|
  {
    if mids == [] then (Ok(head), h)
    else if mids[0] == "" then (Err(EmptyPart), h)
    else
      match CreateTableInSpec(h, head, mids[0])
      case (Err(e), h1) => (Err(e), h1)
      case (Ok(m), h1) =>
        var r := DescendSpec(h1, m, mids[1..]);
        DescendStep(h, h1, r.1, head, m, mids);
        r
  }

  /** One step of the descent: the table found for the first segment stays in place, so the
      walk from `head` goes on from it. */
  lemma DescendStep(h: Heap, h1: Heap, h2: Heap, head: TableId, m: TableId, mids: seq<string>)
    requires mids != [] && mids[0] != ""
    requires GrowsOnlyAbsent(h, h1) && GrowsOnlyAbsent(h1, h2) && head in h.tables
    requires Get(h1, head, KStr(mids[0])) == Table(m)
    ensures GrowsOnlyAbsent(h, h2)
    ensures WalkTables(h2, head, mids) == WalkTables(h2, m, mids[1..])
    ensures (forall i :: 0 <= i < |mids[1..]| ==> mids[1..][i] != "") ==> forall i :: 0 <= i < |mids| ==> mids[i] != ""
  {
    GrowsTransitive(h, h1, h2);
    assert head in h1.tables;
    assert Get(h2, head, KStr(mids[0])) == Table(m);
    assert forall i :: 1 <= i < |mids| ==> mids[i] == mids[1..][i - 1];
  }

  /** An empty first middle segment is refused before anything is created. */
  lemma DescendEmptyRefused(h: Heap, head: TableId, mids: seq<string>)
    requires WellFormed(h) && head in h.tables && mids != [] && mids[0] == ""
    ensures DescendSpec(h, head, mids) == (Err(EmptyPart), h)
  {
  }

  /** `t.set(key, value)` followed by `t.get(key)`: the last step of `set_nested_field`. */
  function StoreField(h: Heap, t: TableId, key: string, value: Value): (r: (Result<Value, Failure>, Heap))
    requires WellFormed(h) && t in h.tables && InHeap(h, value)
    ensures WellFormed(r.1) && r.1.tables.Keys == h.tables.Keys
    ensures r.0 == Ok(value) && Get(r.1, t, KStr(key)) == value
  {
    SetValid(h, t, KStr(key), value);
    var h' := Set(h, t, KStr(key), value);
    (Ok(Get(h', t, KStr(key))), h')
  }

  /** `set_nested_field` on a dotted name split into its first segment, its middle segments and
      its last segment. */
  function DottedSpec(h: Heap, g: TableId, first: string, mids: seq<string>, tail: string, value: Value): (r: (Result<Value, Failure>, Heap))
    requires WellFormed(h) && g in h.tables && InHeap(h, value)
    ensures WellFormed(r.1) && g in r.1.tables
    ensures r.0.Ok? ==> r.0.value == value && forall i :: 0 <= i < |mids| ==> mids[i] != ""
  {
    match CreateModuleSpec(h, g, first)
    case (Err(e), h1) => (Err(e), h1)
    case (Ok(root), h1) =>
      match DescendSpec(h1, root, mids)
      case (Err(e), h2) => (Err(e), h2)
      case (Ok(head), h2) => StoreField(h2, head, tail, value)
  }

  /** `set_nested_field(name, value)`: a name without `.` is a global; otherwise the first
      segment is a module, the middle segments are tables below it, and the last segment is
      overwritten in the last table. The result is the value read back. */
  function SetNestedFieldSpec(h: Heap, g: TableId, name: string, value: Value): (r: (Result<Value, Failure>, Heap))
    requires WellFormed(h) && g in h.tables && InHeap(h, value)
    ensures WellFormed(r.1) && g in r.1.tables
    ensures r.0.Ok? ==> r.0.value == value
    ensures var segs := SplitOn(name, ".");
      r.0.Ok? && |segs| >= 2 ==> forall i :: 1 <= i < |segs| - 1 ==> segs[i] != ""
  {
    var segs := SplitOn(name, ".");
    if |segs| == 1 then StoreField(h, g, segs[0], value)
    else
      var r := DottedSpec(h, g, segs[0], segs[1..|segs| - 1], segs[|segs| - 1], value);
      assert forall i :: 1 <= i < |segs| - 1 ==> segs[i] == segs[1..|segs| - 1][i - 1];
      r
  }

  /** A name without `.` sets the global of that name and nothing else. */
  lemma SetNestedFieldGlobal(h: Heap, g: TableId, name: string, value: Value)
    requires WellFormed(h) && g in h.tables && InHeap(h, value) && '.' !in name
    ensures SetNestedFieldSpec(h, g, name, value) == (Ok(value), Set(h, g, KStr(name), value))
  {
    SplitOnWithout(name, '.');
  }

  /** A successful dotted write first only adds tables and entries where there were none, so
      existing tables along the path are reused, and then overwrites the last segment in the
      table reached from `package.loaded` through the other segments. */
  lemma DottedPath(h: Heap, g: TableId, first: string, mids: seq<string>, tail: string, value: Value)
    requires WellFormed(h) && g in h.tables && InHeap(h, value)
    requires DottedSpec(h, g, first, mids, tail, value).0.Ok?
    ensures PackageTable(h, g, "loaded").Ok?
    ensures exists h2: Heap, head: TableId ::
      && GrowsOnlyAbsent(h, h2) && head in h2.tables
      && WalkTables(h2, PackageTable(h, g, "loaded").value, [first] + mids) == Some(head)
      && DottedSpec(h, g, first, mids, tail, value).1 == Set(h2, head, KStr(tail), value)
  {
    var l := PackageTable(h, g, "loaded").value;
    var (r1, h1) := CreateModuleSpec(h, g, first);
    var (r2, h2) := DescendSpec(h1, r1.value, mids);
    GrowsTransitive(h, h1, h2);
    WalkCons(h2, l, first, mids, r1.value);
    assert DottedSpec(h, g, first, mids, tail, value) == StoreField(h2, r2.value, tail, value);
    assert GrowsOnlyAbsent(h, h2) && r2.value in h2.tables && WalkTables(h2, l, [first] + mids) == Some(r2.value);
  }

  /** A walk whose first segment names table `m` goes on from `m`. */
  lemma WalkCons(h: Heap, l: TableId, first: string, mids: seq<string>, m: TableId)
    requires Get(h, l, KStr(first)) == Table(m)
    ensures WalkTables(h, l, [first] + mids) == WalkTables(h, m, mids)
  {
    assert ([first] + mids)[1..] == mids;
  }

  /** When a middle segment fails, the tables made for the earlier segments stay: the module
      of the first segment remains in `package.loaded`. */
  lemma DottedFailureKeeps(h: Heap, g: TableId, first: string, mids: seq<string>, tail: string, value: Value)
    requires WellFormed(h) && g in h.tables && InHeap(h, value)
    requires CreateModuleSpec(h, g, first).0.Ok? && DottedSpec(h, g, first, mids, tail, value).0.Err?
    ensures Get(DottedSpec(h, g, first, mids, tail, value).1, PackageTable(h, g, "loaded").value, KStr(first))
      == Table(CreateModuleSpec(h, g, first).0.value)
  {
    var (r1, h1) := CreateModuleSpec(h, g, first);
    var l := PackageTable(h, g, "loaded").value;
    var (r2, h2) := DescendSpec(h1, r1.value, mids);
    assert Get(h2, l, KStr(first)) == Table(r1.value);
  }

  /** `set_nested_field` checks for an empty list of segments, which cannot happen: splitting
      always yields at least one segment, so "module must have a root" is never raised. */
  lemma NestedFieldHasRoot(name: string)
    ensures |SplitOn(name, ".")| >= 1
    ensures SplitOn(name, ".")[0] == name || '.' in name
  {
    if '.' !in name {
      SplitOnWithout(name, '.');
    }
  }

  // ---------------------------------------------------------------------------------------
  // the stateful operations

  /** `create_table_in` on the interpreter. */
  method CreateTableIn(lua: Lua, root: TableId, name: string) returns (r: Result<TableId, Failure>)
    requires lua.Valid() && root in lua.heap.tables
    modifies lua
    ensures lua.Valid() && (r, lua.heap) == CreateTableInSpec(old(lua.heap), root, name)
  {
    var found := Get(lua.heap, root, KStr(name));
    match found
    case Nil =>
      var (m, h1) := NewTable(lua.heap);
      NewTableValid(lua.heap);
      lua.heap := Set(h1, root, KStr(name), Table(m));
      r := Ok(m);
    case Table(m) =>
      r := Ok(m);
    case _ =>
      r := Err(TableExists(name, found));
  }

  /** `create_module` on the interpreter. */
  method CreateModule(lua: Lua, name: string) returns (r: Result<TableId, Failure>)
    requires lua.Valid()
    modifies lua
    ensures lua.Valid() && (r, lua.heap) == CreateModuleSpec(old(lua.heap), lua.globals, name)
  {
    var loaded := PackageTable(lua.heap, lua.globals, "loaded");
    if loaded.Err? {
      return Err(LuaFailure(loaded.error));
    }
    r := CreateTableIn(lua, loaded.value, name);
  }

  /** The loop of `set_nested_field` over the middle segments, on the interpreter. */
  method Descend(lua: Lua, root: TableId, mids: seq<string>) returns (r: Result<TableId, Failure>)
    requires lua.Valid() && root in lua.heap.tables
    modifies lua
    ensures lua.Valid() && (r, lua.heap) == DescendSpec(old(lua.heap), root, mids)
  {
    ghost var h1 := lua.heap;
    var head := root;
    var i := 0;
    while i < |mids|
      invariant 0 <= i <= |mids|
      invariant lua.Valid() && head in lua.heap.tables
      invariant DescendSpec(h1, root, mids) == DescendSpec(lua.heap, head, mids[i..])
    {
      assert mids[i..][0] == mids[i] && mids[i..][1..] == mids[i + 1..];
      if mids[i] == "" {
        return Err(EmptyPart);
      }
      var node := CreateTableIn(lua, head, mids[i]);
      if node.Err? {
        return Err(node.error);
      }
      head := node.value;
      i := i + 1;
    }
    assert mids[i..] == [];
    r := Ok(head);
  }

  /** `set_nested_field` on the interpreter. */
  method SetNestedField(lua: Lua, name: string, value: Value) returns (r: Result<Value, Failure>)
    requires lua.Valid() && InHeap(lua.heap, value)
    modifies lua
    ensures lua.Valid() && (r, lua.heap) == SetNestedFieldSpec(old(lua.heap), lua.globals, name, value)
  {
    var parts := SplitOn(name, ".");
    var tail := parts[|parts| - 1];
    var target := lua.globals;
    if |parts| > 1 {
      var root := CreateModule(lua, parts[0]);
      if root.Err? {
        return Err(root.error);
      }
      var head := Descend(lua, root.value, parts[1..|parts| - 1]);
      if head.Err? {
        return Err(head.error);
      }
      target := head.value;
    }
    SetValid(lua.heap, target, KStr(tail), value);
    lua.heap := Set(lua.heap, target, KStr(tail), value);
    r := Ok(Get(lua.heap, target, KStr(tail)));
  }

  // ---------------------------------------------------------------------------------------
  // create_state

  /** The build and platform facts stored in the host module: package version, target triple,
      operating system name and family, and architecture. */
  datatype Metadata = Metadata(version: string, targetTriple: string, osName: string, osFamily: string, arch: string)

  /** The keys the metadata is stored under. */
  const MetadataKeys: set<Key> := {KStr("version"), KStr("target_triple"), KStr("os_name"), KStr("os_family"), KStr("arch")}

  /** Stores the metadata fields in table `m`. */
  function WithMetadata(h: Heap, m: TableId, meta: Metadata): (h': Heap)
    requires WellFormed(h) && m in h.tables
    ensures WellFormed(h') && h'.tables.Keys == h.tables.Keys && h'.next == h.next
    ensures Get(h', m, KStr("version")) == Str(meta.version)
    ensures Get(h', m, KStr("target_triple")) == Str(meta.targetTriple)
    ensures Get(h', m, KStr("os_name")) == Str(meta.osName)
    ensures Get(h', m, KStr("os_family")) == Str(meta.osFamily)
    ensures Get(h', m, KStr("arch")) == Str(meta.arch)
    ensures forall t :: t in h.tables && t != m ==> h'.tables[t] == h.tables[t]
    ensures forall k :: k !in MetadataKeys ==> Get(h', m, k) == Get(h, m, k)
  {
    var c := h.tables[m][KStr("version") := Str(meta.version)][KStr("target_triple") := Str(meta.targetTriple)]
      [KStr("os_name") := Str(meta.osName)][KStr("os_family") := Str(meta.osFamily)][KStr("arch") := Str(meta.arch)];
    h.(tables := h.tables[m := c])
  }

  /** One pass of a loop over items `B` on the interpreter state: its outcome and the state
      after it. */
  type Pass<!B, V> = (Heap, B) --> (Result<V, Failure>, Heap)

  /** A pass applies to every well-formed state that holds table `g`, and keeps it so. */
  ghost predicate PassSound<B(!new), V>(pass: Pass<B, V>, g: TableId)
  {
    forall h: Heap, b: B :: WellFormed(h) && g in h.tables ==>
      && pass.requires(h, b) && WellFormed(pass(h, b).1) && g in pass(h, b).1.tables
  }

  /** A loop of passes over `bs`, one each in order; the first failure stops it with that
      failure and the state its pass left. */
  function RunPasses<B(!new), V>(h: Heap, g: TableId, bs: seq<B>, pass: Pass<B, V>): (r: (Result<(), Failure>, Heap))
    requires WellFormed(h) && g in h.tables && PassSound(pass, g)
    ensures WellFormed(r.1) && g in r.1.tables
    decreases |bs|
  {
    if bs == [] then (Ok(()), h)
    else
      match pass(h, bs[0])
      case (Err(e), h1) => (Err(e), h1)
      case (Ok(_), h1) => RunPasses(h1, g, bs[1..], pass)
  }

  /** The state after the first `n` passes, or `None` when one of them fails. */
  function RunPrefix<B(!new), V>(h: Heap, g: TableId, bs: seq<B>, pass: Pass<B, V>, n: nat): (r: Option<Heap>)
    requires WellFormed(h) && g in h.tables && PassSound(pass, g) && n <= |bs|
    ensures r.Some? ==> WellFormed(r.value) && g in r.value.tables
    decreases n
  {
    if n == 0 then Some(h)
    else
      match pass(h, bs[0])
      case (Err(_), _) => None
      case (Ok(_), h1) => RunPrefix(h1, g, bs[1..], pass, n - 1)
  }

  /** Pass `i` is the first that fails: the passes before it succeed, and it yields the
      failure `e` and the state `h'`. */
  ghost predicate FailsAt<B(!new), V>(h: Heap, g: TableId, bs: seq<B>, pass: Pass<B, V>, i: int, e: Failure, h': Heap)
    requires WellFormed(h) && g in h.tables && PassSound(pass, g)
  {
    && 0 <= i < |bs|
    && RunPrefix(h, g, bs, pass, i).Some?
    && pass(RunPrefix(h, g, bs, pass, i).value, bs[i]) == (Err(e), h')
  }

  /** A loop succeeds exactly when every pass does, and then ends in the state after the
      last pass. */
  lemma {:induction false} RunSucceeds<B(!new), V>(h: Heap, g: TableId, bs: seq<B>, pass: Pass<B, V>)
    requires WellFormed(h) && g in h.tables && PassSound(pass, g)
    ensures var (r, h') := RunPasses(h, g, bs, pass);
      && (r.Ok? <==> RunPrefix(h, g, bs, pass, |bs|).Some?)
      && (r.Ok? ==> h' == RunPrefix(h, g, bs, pass, |bs|).value)
    decreases |bs|
  {
    if bs != [] && pass(h, bs[0]).0.Ok? {
      RunSucceeds(pass(h, bs[0]).1, g, bs[1..], pass);
    }
  }

  /** A failed loop fails with the failure and the state of the first pass that fails. */
  lemma {:induction false} RunFails<B(!new), V>(h: Heap, g: TableId, bs: seq<B>, pass: Pass<B, V>)
    requires WellFormed(h) && g in h.tables && PassSound(pass, g)
    ensures var (r, h') := RunPasses(h, g, bs, pass);
      r.Err? ==> exists i :: FailsAt(h, g, bs, pass, i, r.error, h')
    decreases |bs|
  {
    if bs != [] {
      var (r1, h1) := pass(h, bs[0]);
      if r1.Err? {
        assert FailsAt(h, g, bs, pass, 0, r1.error, h1);
      } else {
        RunFails(h1, g, bs[1..], pass);
        var (r, h') := RunPasses(h1, g, bs[1..], pass);
        if r.Err? {
          var i :| FailsAt(h1, g, bs[1..], pass, i, r.error, h');
          assert bs[1..][i] == bs[i + 1];
          assert FailsAt(h, g, bs, pass, i + 1, r.error, h');
        }
      }
    }
  }

  /** In a successful loop every pass succeeds, on the state the passes before it left. */
  lemma {:induction false} RunEach<B(!new), V>(h: Heap, g: TableId, bs: seq<B>, pass: Pass<B, V>, i: nat)
    requires WellFormed(h) && g in h.tables && PassSound(pass, g)
    requires RunPasses(h, g, bs, pass).0.Ok? && i < |bs|
    ensures RunPrefix(h, g, bs, pass, i).Some?
    ensures pass(RunPrefix(h, g, bs, pass, i).value, bs[i]).0.Ok?
    decreases i
  {
    if i > 0 {
      assert bs[1..][i - 1] == bs[i];
      RunEach(pass(h, bs[0]).1, g, bs[1..], pass, i - 1);
    }
  }

  /** Loading a chunk (`load_module`, which runs it through `Lua::load_from_function`): given
      the state, the module name and the bytecode, the value it yields and the state after. */
  type Loader = (Heap, string, seq<bv8>) -> Result<(Value, Heap), LuaError>

  /** `h'` keeps every table of `h`, and every entry of them except those at key `k`. */
  ghost predicate KeepsExcept(h: Heap, h': Heap, k: Key)
  {
    && h.next <= h'.next
    && (forall t :: t in h.tables ==> t in h'.tables)
    && (forall t, k' :: t in h.tables && k' != k ==> Get(h', t, k') == Get(h, t, k'))
  }

  /** A loader keeps every existing table and yields a value that lives in the state it
      returns. The only existing entries it may change are those at the module's own name,
      such as `package.loaded[name]`, where `load_from_function` keeps the result. */
  ghost predicate LoaderSound(load: Loader)
  {
    forall h, name, data :: WellFormed(h) && load(h, name, data).Ok? ==>
      && WellFormed(load(h, name, data).value.1)
      && KeepsExcept(h, load(h, name, data).value.1, KStr(name))
      && InHeap(load(h, name, data).value.1, load(h, name, data).value.0)
  }

  /** The name a builtin module is loaded and installed under: the host module, a `.`, then
      the builtin's own name, which is recovered from it. */
  function BuiltinName(name: string): (n: string)
    ensures |n| == |ModName| + 1 + |name| && n[..|ModName|] == ModName && n[|ModName|] == '.'
    ensures n[|ModName| + 1..] == name
  {
    ModName + "." + name
  }

  /** A builtin's module name starts with the host module and holds a `.`, so it is none of
      `package`, `loaded` and `dfim`, and no name without `.`. */
  lemma BuiltinNameDotted(name: string)
    ensures BuiltinName(name)[0] == 'd' && |BuiltinName(name)| > |ModName| && '.' in BuiltinName(name)
  {
    assert BuiltinName(name)[|ModName|] == '.';
  }

  /** The first `.`-separated segment of a name. */
  function FirstSegment(name: string): string
  {
    SplitOn(name, ".")[0]
  }

  /** One pass of the loop of `create_state`: builtin `b` is loaded as `dfim.<name>`, and the
      value it yields is installed at that dotted path and returned; a loader error stops the
      pass with the state as it was. */
  function InstallStep(h: Heap, g: TableId, b: (string, seq<bv8>), load: Loader): (r: (Result<Value, Failure>, Heap))
    requires WellFormed(h) && g in h.tables && LoaderSound(load)
    ensures WellFormed(r.1) && g in r.1.tables
  {
    var modname := BuiltinName(b.0);
    match load(h, modname, b.1)
    case Err(e) => (Err(LuaFailure(e)), h)
    case Ok((v, h1)) => SetNestedFieldSpec(h1, g, modname, v)
  }

  /** A pass yields the value the loader returned for `dfim.<name>`; a loader error stops
      the pass with that error and the state as it was. */
  lemma InstallStepLoads(h: Heap, g: TableId, b: (string, seq<bv8>), load: Loader)
    requires WellFormed(h) && g in h.tables && LoaderSound(load)
    ensures var (r, h') := InstallStep(h, g, b, load);
      && (r.Ok? ==> load(h, BuiltinName(b.0), b.1).Ok? && r.value == load(h, BuiltinName(b.0), b.1).value.0)
      && (load(h, BuiltinName(b.0), b.1).Err? ==> r == Err(LuaFailure(load(h, BuiltinName(b.0), b.1).error)) && h' == h)
  {
  }

  /** The pass of `create_state`, as a value of type `Pass`. */
  function InstallPass(g: TableId, load: Loader): (pass: Pass<(string, seq<bv8>), Value>)
    requires LoaderSound(load)
    ensures PassSound(pass, g)
  {
    (h: Heap, b: (string, seq<bv8>)) requires WellFormed(h) && g in h.tables => InstallStep(h, g, b, load)
  }

  /** The loop of `create_state` over the builtin `(name, bytecode)` pairs: one pass each, and
      the first failure stops it. */
  function InstallSpec(h: Heap, g: TableId, builtins: seq<(string, seq<bv8>)>, load: Loader): (r: (Result<(), Failure>, Heap))
    requires WellFormed(h) && g in h.tables && LoaderSound(load)
    ensures WellFormed(r.1) && g in r.1.tables
  {
    RunPasses(h, g, builtins, InstallPass(g, load))
  }

  /** The state before the builtins: a fresh interpreter whose module `dfim` (made in
      `package.loaded`) holds the metadata and is also the global `dfim`. */
  function PreludeSpec(h0: Heap, meta: Metadata): (r: (Result<TableId, Failure>, Heap))
    requires WellFormed(h0) && 0 in h0.tables
    ensures WellFormed(r.1) && 0 in r.1.tables
  {
    match CreateModuleSpec(h0, 0, ModName)
    case (Err(e), h1) => (Err(e), h1)
    case (Ok(m), h1) =>
      var h2 := WithMetadata(h1, m, meta);
      SetValid(h2, 0, KStr(ModName), Table(m));
      (Ok(m), Set(h2, 0, KStr(ModName), Table(m)))
  }

  /** `create_state` without the native API: the prelude, then the builtins. */
  function CreateStateSpec(meta: Metadata, builtins: seq<(string, seq<bv8>)>, load: Loader): (r: (Result<(), Failure>, Heap))
    requires LoaderSound(load)
    ensures WellFormed(r.1) && 0 in r.1.tables
  {
    match PreludeSpec(InitialHeap(), meta)
    case (Err(e), h) => (Err(e), h)
    case (Ok(_), h) => InstallSpec(h, 0, builtins, load)
  }

  /** The globals table `g` holds `package` (`p`), which holds `loaded` (`l`), and the global
      `dfim` and `package.loaded.dfim` are the same table `m`, distinct from the other three. */
  predicate Aliased(h: Heap, g: TableId, p: TableId, l: TableId, m: TableId)
  {
    && Get(h, g, KStr("package")) == Table(p) && Get(h, p, KStr("loaded")) == Table(l)
    && Get(h, g, KStr(ModName)) == Table(m) && Get(h, l, KStr(ModName)) == Table(m)
    && m != g && m != p && m != l
  }

  /** On a state where `package.loaded` has no `dfim`, `create_module("dfim")` makes it a
      fresh table in `package.loaded` and touches nothing else on the way. */
  lemma PreludeModule(h0: Heap, p: TableId, l: TableId)
    requires WellFormed(h0) && 0 in h0.tables
    requires Get(h0, 0, KStr("package")) == Table(p) && Get(h0, p, KStr("loaded")) == Table(l)
    requires Get(h0, l, KStr(ModName)) == Nil
    ensures var (r1, h1) := CreateModuleSpec(h0, 0, ModName);
      && r1 == Ok(h0.next) && h0.next !in h0.tables && p in h0.tables && l in h0.tables
      && Get(h1, 0, KStr("package")) == Table(p) && Get(h1, p, KStr("loaded")) == Table(l)
      && Get(h1, l, KStr(ModName)) == Table(h0.next)
  {
    CreateTableInAbsent(h0, l, ModName);
  }

  /** On such a state the prelude succeeds, makes `dfim` a fresh table, and binds it both as a
      global and in `package.loaded`. */
  lemma PreludeAliased(h0: Heap, meta: Metadata, p: TableId, l: TableId)
    requires WellFormed(h0) && 0 in h0.tables
    requires Get(h0, 0, KStr("package")) == Table(p) && Get(h0, p, KStr("loaded")) == Table(l)
    requires Get(h0, l, KStr(ModName)) == Nil
    ensures var (r, h) := PreludeSpec(h0, meta);
      r == Ok(h0.next) && Aliased(h, 0, p, l, h0.next)
  {
    PreludeModule(h0, p, l);
    var m := h0.next;
    var (r1, h1) := CreateModuleSpec(h0, 0, ModName);
    var h2 := WithMetadata(h1, m, meta);
    assert Get(h2, 0, KStr("package")) == Table(p) by { assert h2.tables[0] == h1.tables[0]; }
    assert Get(h2, p, KStr("loaded")) == Table(l) by { assert h2.tables[p] == h1.tables[p]; }
    assert Get(h2, l, KStr(ModName)) == Table(m) by { assert h2.tables[l] == h1.tables[l]; }
  }

  /** On such a state the prelude stores the metadata in the new `dfim` table. */
  lemma PreludeMetadata(h0: Heap, meta: Metadata, p: TableId, l: TableId)
    requires WellFormed(h0) && 0 in h0.tables
    requires Get(h0, 0, KStr("package")) == Table(p) && Get(h0, p, KStr("loaded")) == Table(l)
    requires Get(h0, l, KStr(ModName)) == Nil
    ensures var (_, h) := PreludeSpec(h0, meta);
      && Get(h, h0.next, KStr("version")) == Str(meta.version)
      && Get(h, h0.next, KStr("target_triple")) == Str(meta.targetTriple)
      && Get(h, h0.next, KStr("os_name")) == Str(meta.osName)
      && Get(h, h0.next, KStr("os_family")) == Str(meta.osFamily)
      && Get(h, h0.next, KStr("arch")) == Str(meta.arch)
  {
    PreludeModule(h0, p, l);
  }

  /** A builtin's name splits into the host module followed by the segments of the name. */
  lemma BuiltinSplit(name: string)
    ensures SplitOn(BuiltinName(name), ".") == [ModName] + SplitOn(name, ".")
  {
    assert BuiltinName(name) == ModName + ['.'] + name;
    SplitOnConcat(ModName, name, '.');
    SplitOnWithout(ModName, '.');
  }

  /** A builtin name without `.` splits into the host module and that name. */
  lemma BuiltinSegments(name: string)
    requires '.' !in name
    ensures SplitOn(BuiltinName(name), ".") == [ModName, name]
  {
    BuiltinSplit(name);
    SplitOnWithout(name, '.');
  }

  /** Table `t` is the globals, `package`, `package.loaded` or the host module. */
  predicate IsCore(t: TableId, g: TableId, p: TableId, l: TableId, m: TableId)
  {
    t == g || t == p || t == l || t == m
  }

  /** Value `v` is not a reference to any of those four tables. */
  predicate Detached(v: Value, g: TableId, p: TableId, l: TableId, m: TableId)
  {
    v.Table? ==> !IsCore(v.id, g, p, l, m)
  }

  /** Outside the globals, `package` and `package.loaded`, no entry refers to any of the four
      tables: a walk into the host module cannot come back to them. */
  ghost predicate Shielded(h: Heap, g: TableId, p: TableId, l: TableId, m: TableId)
  {
    forall t, k :: !(t == g || t == p || t == l) ==> Detached(Get(h, t, k), g, p, l, m)
  }

  /** Running a builtin's chunk on a shielded state leaves it shielded, and the module's
      value is none of the four tables. */
  ghost predicate LoaderShields(load: Loader, g: TableId, p: TableId, l: TableId, m: TableId)
  {
    forall h, name, data :: WellFormed(h) && Shielded(h, g, p, l, m) && load(h, name, data).Ok? ==>
      && Shielded(load(h, name, data).value.1, g, p, l, m)
      && Detached(load(h, name, data).value.0, g, p, l, m)
  }

  /** No entry of the globals, `package` or `package.loaded` changed. */
  ghost predicate CoreSame(h: Heap, h': Heap, g: TableId, p: TableId, l: TableId)
  {
    forall k :: Get(h', g, k) == Get(h, g, k) && Get(h', p, k) == Get(h, p, k) && Get(h', l, k) == Get(h, l, k)
  }

  /** The four tables of an aliased state exist. */
  lemma AliasedLive(h: Heap, g: TableId, p: TableId, l: TableId, m: TableId)
    requires WellFormed(h) && g in h.tables && Aliased(h, g, p, l, m)
    ensures p in h.tables && l in h.tables && m in h.tables
  {
    assert KStr("package") in h.tables[g];
    assert KStr("loaded") in h.tables[p];
    assert KStr(ModName) in h.tables[g];
  }

  /** `create_table_in` on a table other than the globals, `package` and `package.loaded`
      keeps a shielded state shielded, changes at most the one entry, and never yields one of
      the four tables. */
  lemma CreateTableInShielded(h: Heap, t: TableId, s: string, g: TableId, p: TableId, l: TableId, m: TableId)
    requires WellFormed(h) && t in h.tables && !(t == g || t == p || t == l)
    requires g in h.tables && p in h.tables && l in h.tables && m in h.tables
    requires Shielded(h, g, p, l, m)
    ensures var (r, h') := CreateTableInSpec(h, t, s);
      && Shielded(h', g, p, l, m) && CoreSame(h, h', g, p, l)
      && (forall k :: (t != m || k != KStr(s)) ==> Get(h', m, k) == Get(h, m, k))
      && (r.Ok? ==> !IsCore(r.value, g, p, l, m))
  {
    if Get(h, t, KStr(s)) == Nil {
      CreateTableInAbsent(h, t, s);
      var (r, h') := CreateTableInSpec(h, t, s);
      forall u, k | !(u == g || u == p || u == l)
        ensures Detached(Get(h', u, k), g, p, l, m)
      {
        if u !in h.tables && (u, k) != (t, KStr(s)) {
          assert Get(h', u, k) == Nil;
        }
      }
    }
  }

  /** The descent below a table other than the globals, `package` and `package.loaded` keeps a
      shielded state shielded. Only the first step can write into the host module, at the
      first segment; every table it reaches past its start is none of the four. */
  lemma {:induction false} DescendShielded(h: Heap, head: TableId, mids: seq<string>, g: TableId, p: TableId, l: TableId, m: TableId)
    requires WellFormed(h) && head in h.tables && !(head == g || head == p || head == l)
    requires g in h.tables && p in h.tables && l in h.tables && m in h.tables
    requires Shielded(h, g, p, l, m)
    ensures var (r, h') := DescendSpec(h, head, mids);
      && Shielded(h', g, p, l, m) && CoreSame(h, h', g, p, l)
      && (forall k :: (head != m || mids == [] || k != KStr(mids[0])) ==> Get(h', m, k) == Get(h, m, k))
      && (r.Ok? && mids == [] ==> r.value == head)
      && (r.Ok? && mids != [] ==> !IsCore(r.value, g, p, l, m))
    decreases |mids|
  {
    if mids != [] && mids[0] != "" {
      CreateTableInShielded(h, head, mids[0], g, p, l, m);
      match CreateTableInSpec(h, head, mids[0])
      case (Err(_), _) =>
      case (Ok(u), h1) =>
        DescendShielded(h1, u, mids[1..], g, p, l, m);
    }
  }

  /** The segments of `dfim.<name>`: the host module, then the first segment of `name`,
      which is `name` itself when it holds no `.`. */
  lemma BuiltinPath(name: string)
    ensures var segs := SplitOn(BuiltinName(name), ".");
      && |segs| >= 2 && segs[0] == ModName && segs[1] == FirstSegment(name)
      && ('.' !in name ==> |segs| == 2 && segs[1] == name)
  {
    BuiltinSplit(name);
    if '.' !in name {
      SplitOnWithout(name, '.');
    }
  }

  /** The last write of `set_nested_field`, into a table other than the globals, `package`
      and `package.loaded`, of a value that is none of the four tables. */
  lemma StoreShielded(h: Heap, t: TableId, key: string, v: Value, p: TableId, l: TableId, m: TableId)
    requires WellFormed(h) && t in h.tables && !(t == 0 || t == p || t == l) && InHeap(h, v)
    requires Aliased(h, 0, p, l, m) && Shielded(h, 0, p, l, m) && Detached(v, 0, p, l, m)
    ensures var h' := StoreField(h, t, key, v).1;
      && Aliased(h', 0, p, l, m) && Shielded(h', 0, p, l, m)
      && (forall k :: (t != m || k != KStr(key)) ==> Get(h', m, k) == Get(h, m, k))
  {
  }

  /** `create_module("dfim")` on an aliased state finds the host module and changes nothing. */
  lemma ModuleOfAliased(h: Heap, p: TableId, l: TableId, m: TableId)
    requires WellFormed(h) && 0 in h.tables && Aliased(h, 0, p, l, m)
    ensures p in h.tables && l in h.tables && m in h.tables
    ensures CreateModuleSpec(h, 0, ModName) == (Ok(m), h)
  {
    AliasedLive(h, 0, p, l, m);
    assert PackageTable(h, 0, "loaded") == Ok(l);
    CreateTableInExisting(h, l, ModName, m);
  }

  /** A write from `h` to `r.1` leaves the state aliased and shielded and changes the host
      module at most at key `first`. */
  ghost predicate StoreKept(h: Heap, r: (Result<Value, Failure>, Heap), first: string, p: TableId, l: TableId, m: TableId)
  {
    && Aliased(r.1, 0, p, l, m) && Shielded(r.1, 0, p, l, m)
    && forall k :: k != KStr(first) ==> Get(r.1, m, k) == Get(h, m, k)
  }

  /** A dotted write below the host module of a value that is none of the four tables keeps
      an aliased, shielded state so, and changes the host module only at the first segment
      below it; with no middle segments, the value lands in the host module. */
  lemma DottedShielded(h: Heap, mids: seq<string>, tail: string, v: Value, p: TableId, l: TableId, m: TableId)
    requires WellFormed(h) && 0 in h.tables && InHeap(h, v)
    requires Aliased(h, 0, p, l, m) && Shielded(h, 0, p, l, m) && Detached(v, 0, p, l, m)
    ensures StoreKept(h, DottedSpec(h, 0, ModName, mids, tail, v), if mids == [] then tail else mids[0], p, l, m)
    ensures var (r, h') := DottedSpec(h, 0, ModName, mids, tail, v);
      mids == [] ==> r.Ok? && Get(h', m, KStr(tail)) == v
  {
    ModuleOfAliased(h, p, l, m);
    DescendShielded(h, m, mids, 0, p, l, m);
    var (r2, h2) := DescendSpec(h, m, mids);
    if r2.Ok? {
      assert DottedSpec(h, 0, ModName, mids, tail, v) == StoreField(h2, r2.value, tail, v);
      assert Aliased(h2, 0, p, l, m);
      StoreShielded(h2, r2.value, tail, v, p, l, m);
    }
  }

  /** The segments of `dfim.<name>` between the host module and the last one. */
  ghost function BuiltinMids(name: string): seq<string>
  {
    BuiltinPath(name);
    var segs := SplitOn(BuiltinName(name), ".");
    segs[1..|segs| - 1]
  }

  /** The last segment of `dfim.<name>`. */
  ghost function BuiltinTail(name: string): string
  {
    BuiltinPath(name);
    var segs := SplitOn(BuiltinName(name), ".");
    segs[|segs| - 1]
  }

  /** The first segment below the host module is the first segment of `name`; a name
      without `.` is the last segment, with none between. */
  lemma BuiltinTailFirst(name: string)
    ensures (if BuiltinMids(name) == [] then BuiltinTail(name) else BuiltinMids(name)[0]) == FirstSegment(name)
    ensures '.' !in name ==> BuiltinMids(name) == [] && BuiltinTail(name) == name
  {
    BuiltinPath(name);
  }

  /** Installing at `dfim.<name>` is a dotted write below the host module. */
  lemma BuiltinWrite(h: Heap, name: string, v: Value)
    requires WellFormed(h) && 0 in h.tables && InHeap(h, v)
    ensures SetNestedFieldSpec(h, 0, BuiltinName(name), v) == DottedSpec(h, 0, ModName, BuiltinMids(name), BuiltinTail(name), v)
  {
    BuiltinPath(name);
  }

  /** Installing a value that is none of the four tables at `dfim.<name>` keeps an aliased,
      shielded state so, and changes the host module only at the first segment of `name`;
      a name without `.` stores the value right in the host module. */
  lemma BuiltinStore(h: Heap, name: string, v: Value, p: TableId, l: TableId, m: TableId)
    requires WellFormed(h) && 0 in h.tables && InHeap(h, v)
    requires Aliased(h, 0, p, l, m) && Shielded(h, 0, p, l, m) && Detached(v, 0, p, l, m)
    ensures StoreKept(h, SetNestedFieldSpec(h, 0, BuiltinName(name), v), FirstSegment(name), p, l, m)
    ensures var (r, h') := SetNestedFieldSpec(h, 0, BuiltinName(name), v);
      '.' !in name ==> r.Ok? && Get(h', m, KStr(name)) == v
  {
    BuiltinWrite(h, name, v);
    BuiltinTailFirst(name);
    DottedShielded(h, BuiltinMids(name), BuiltinTail(name), v, p, l, m);
  }

  /** One pass from an aliased, shielded state keeps it so, whether it succeeds or not. The
      host module changes at most at the first segment of the builtin's name and at the
      module's full name; a name without `.` gets the loaded value. */
  lemma InstallStepKeeps(h: Heap, b: (string, seq<bv8>), load: Loader, p: TableId, l: TableId, m: TableId)
    requires WellFormed(h) && 0 in h.tables && LoaderSound(load) && LoaderShields(load, 0, p, l, m)
    requires Aliased(h, 0, p, l, m) && Shielded(h, 0, p, l, m)
    ensures var (r, h') := InstallStep(h, 0, b, load);
      && Aliased(h', 0, p, l, m) && Shielded(h', 0, p, l, m)
      && (forall k :: k != KStr(FirstSegment(b.0)) && k != KStr(BuiltinName(b.0)) ==> Get(h', m, k) == Get(h, m, k))
      && ('.' !in b.0 && r.Ok? ==> Get(h', m, KStr(b.0)) == r.value)
  {
    var modname := BuiltinName(b.0);
    match load(h, modname, b.1)
    case Err(_) =>
    case Ok((v, h1)) =>
      AliasedLive(h, 0, p, l, m);
      BuiltinNameDotted(b.0);
      assert KStr("package") != KStr(modname) && KStr("loaded") != KStr(modname) && KStr(ModName) != KStr(modname);
      assert Aliased(h1, 0, p, l, m);
      BuiltinStore(h1, b.0, v, p, l, m);
  }

  /** The state the builtin loop keeps: aliased and shielded. */
  ghost predicate Sheltered(h: Heap, p: TableId, l: TableId, m: TableId)
  {
    WellFormed(h) && 0 in h.tables && Aliased(h, 0, p, l, m) && Shielded(h, 0, p, l, m)
  }

  /** A pass on a sheltered state keeps it so, changes the host module at most at the first
      segment of the builtin's name and at the module's full name, and on success puts its
      value under a name without `.`. */
  ghost predicate PassConfined(pass: Pass<(string, seq<bv8>), Value>, p: TableId, l: TableId, m: TableId)
    requires PassSound(pass, 0)
  {
    forall h, b :: Sheltered(h, p, l, m) ==>
      && Sheltered(pass(h, b).1, p, l, m)
      && (forall k :: k != KStr(FirstSegment(b.0)) && k != KStr(BuiltinName(b.0)) ==> Get(pass(h, b).1, m, k) == Get(h, m, k))
      && ('.' !in b.0 && pass(h, b).0.Ok? ==> Get(pass(h, b).1, m, KStr(b.0)) == pass(h, b).0.value)
  }

  /** The pass of `create_state` is confined, for a loader that keeps the state shielded. */
  lemma InstallConfined(load: Loader, p: TableId, l: TableId, m: TableId)
    requires LoaderSound(load) && LoaderShields(load, 0, p, l, m)
    ensures PassConfined(InstallPass(0, load), p, l, m)
  {
    forall h, b | Sheltered(h, p, l, m)
      ensures var (r, h') := InstallPass(0, load)(h, b);
        && Sheltered(h', p, l, m)
        && (forall k :: k != KStr(FirstSegment(b.0)) && k != KStr(BuiltinName(b.0)) ==> Get(h', m, k) == Get(h, m, k))
        && ('.' !in b.0 && r.Ok? ==> Get(h', m, KStr(b.0)) == r.value)
    {
      InstallStepKeeps(h, b, load, p, l, m);
    }
  }

  /** A loop of confined passes from a sheltered state keeps it so, whether or not a pass
      fails. */
  lemma {:induction false} RunKeepsAlias(h: Heap, bs: seq<(string, seq<bv8>)>, pass: Pass<(string, seq<bv8>), Value>, p: TableId, l: TableId, m: TableId)
    requires Sheltered(h, p, l, m) && PassSound(pass, 0) && PassConfined(pass, p, l, m)
    ensures Sheltered(RunPasses(h, 0, bs, pass).1, p, l, m)
    decreases |bs|
  {
    if bs != [] && pass(h, bs[0]).0.Ok? {
      RunKeepsAlias(pass(h, bs[0]).1, bs[1..], pass, p, l, m);
    }
  }

  /** A key without `.` that is no item's first segment keeps its entry in the host module
      through a loop of confined passes. */
  lemma {:induction false} RunKeepsEntry(h: Heap, bs: seq<(string, seq<bv8>)>, pass: Pass<(string, seq<bv8>), Value>, p: TableId, l: TableId, m: TableId, key: string)
    requires Sheltered(h, p, l, m) && PassSound(pass, 0) && PassConfined(pass, p, l, m)
    requires '.' !in key && forall j :: 0 <= j < |bs| ==> FirstSegment(bs[j].0) != key
    ensures Get(RunPasses(h, 0, bs, pass).1, m, KStr(key)) == Get(h, m, KStr(key))
    decreases |bs|
  {
    if bs != [] {
      BuiltinNameDotted(bs[0].0);
      assert KStr(key) != KStr(BuiltinName(bs[0].0));
      if pass(h, bs[0]).0.Ok? {
        assert forall j :: 0 <= j < |bs[1..]| ==> bs[1..][j] == bs[j + 1];
        RunKeepsEntry(pass(h, bs[0]).1, bs[1..], pass, p, l, m, key);
      }
    }
  }

  /** After a successful loop of confined passes from a sheltered state, the host module
      holds under item `i`'s name the value its pass yielded, when that name holds no `.` and
      no later item's first segment is that name. */
  lemma {:induction false} RunPlaces(h: Heap, bs: seq<(string, seq<bv8>)>, pass: Pass<(string, seq<bv8>), Value>, p: TableId, l: TableId, m: TableId, i: nat)
    requires Sheltered(h, p, l, m) && PassSound(pass, 0) && PassConfined(pass, p, l, m)
    requires RunPasses(h, 0, bs, pass).0.Ok?
    requires i < |bs| && '.' !in bs[i].0
    requires forall j :: i < j < |bs| ==> FirstSegment(bs[j].0) != bs[i].0
    ensures RunPrefix(h, 0, bs, pass, i).Some?
    ensures var hi := RunPrefix(h, 0, bs, pass, i).value;
      && pass(hi, bs[i]).0.Ok?
      && Get(RunPasses(h, 0, bs, pass).1, m, KStr(bs[i].0)) == pass(hi, bs[i]).0.value
    decreases i
  {
    var h1 := pass(h, bs[0]).1;
    assert forall j :: 0 <= j < |bs[1..]| ==> bs[1..][j] == bs[j + 1];
    if i == 0 {
      RunKeepsEntry(h1, bs[1..], pass, p, l, m, bs[0].0);
    } else {
      RunPlaces(h1, bs[1..], pass, p, l, m, i - 1);
    }
  }

  /** The builtin loop of `create_state` from an aliased, shielded state keeps it so. */
  lemma InstallKeepsAlias(h: Heap, builtins: seq<(string, seq<bv8>)>, load: Loader, p: TableId, l: TableId, m: TableId)
    requires LoaderSound(load) && LoaderShields(load, 0, p, l, m) && Sheltered(h, p, l, m)
    ensures Sheltered(InstallSpec(h, 0, builtins, load).1, p, l, m)
  {
    InstallConfined(load, p, l, m);
    RunKeepsAlias(h, builtins, InstallPass(0, load), p, l, m);
  }

  /** After a successful builtin loop from an aliased, shielded state, the host module holds
      under builtin `i`'s name the value the loader returned for `dfim.<name>` on pass `i`,
      when that name holds no `.` and no later builtin's first segment is that name. */
  lemma InstallPlaces(h: Heap, builtins: seq<(string, seq<bv8>)>, load: Loader, p: TableId, l: TableId, m: TableId, i: nat)
    requires LoaderSound(load) && LoaderShields(load, 0, p, l, m) && Sheltered(h, p, l, m)
    requires InstallSpec(h, 0, builtins, load).0.Ok?
    requires i < |builtins| && '.' !in builtins[i].0
    requires forall j :: i < j < |builtins| ==> FirstSegment(builtins[j].0) != builtins[i].0
    ensures RunPrefix(h, 0, builtins, InstallPass(0, load), i).Some?
    ensures var hi := RunPrefix(h, 0, builtins, InstallPass(0, load), i).value;
      && load(hi, BuiltinName(builtins[i].0), builtins[i].1).Ok?
      && Get(InstallSpec(h, 0, builtins, load).1, m, KStr(builtins[i].0)) == load(hi, BuiltinName(builtins[i].0), builtins[i].1).value.0
  {
    InstallConfined(load, p, l, m);
    RunPlaces(h, builtins, InstallPass(0, load), p, l, m, i);
    InstallStepLoads(RunPrefix(h, 0, builtins, InstallPass(0, load), i).value, 0, builtins[i], load);
  }

  /** A fresh interpreter holds no table outside the globals, `package` and `package.loaded`
      in any entry. */
  lemma InitialDetached(t: TableId, k: Key)
    requires !(t == 0 || t == 1 || t == 2)
    ensures Detached(Get(InitialHeap(), t, k), 0, 1, 2, 5)
  {
    var h0 := InitialHeap();
    if t == 4 && k in h0.tables[4] {
      assert k == KInt(1) || k == KInt(2) || k == KInt(3) || k == KInt(4);
    }
  }

  /** On a fresh interpreter, `create_module("dfim")` adds the empty table 5 and changes no
      entry outside `package.loaded`. */
  lemma InitialModule()
    ensures var h1 := CreateModuleSpec(InitialHeap(), 0, ModName).1;
      && 5 in h1.tables && h1.tables[5] == map[]
      && forall t, k :: t != 2 ==> Get(h1, t, k) == Get(InitialHeap(), t, k)
  {
    var h0 := InitialHeap();
    assert Get(h0, 2, KStr(ModName)) == Nil;
    CreateTableInAbsent(h0, 2, ModName);
    assert CreateModuleSpec(h0, 0, ModName) == CreateTableInSpec(h0, 2, ModName);
  }

  /** After `create_module("dfim")` on a fresh interpreter, no table outside the globals,
      `package` and `package.loaded` refers to one of the four core tables. */
  lemma InitialModuleDetached()
    ensures var h1 := CreateModuleSpec(InitialHeap(), 0, ModName).1;
      forall t, k :: !(t == 0 || t == 1 || t == 2) ==> Detached(Get(h1, t, k), 0, 1, 2, 5)
  {
    InitialModule();
    forall t, k | !(t == 0 || t == 1 || t == 2)
      ensures Detached(Get(CreateModuleSpec(InitialHeap(), 0, ModName).1, t, k), 0, 1, 2, 5)
    {
      InitialDetached(t, k);
    }
  }

  /** Storing the metadata strings in the host module and binding it as a global keep a
      state shielded. */
  lemma MetadataShielded(h1: Heap, meta: Metadata)
    requires WellFormed(h1) && 0 in h1.tables && 5 in h1.tables
    requires forall t, k :: !(t == 0 || t == 1 || t == 2) ==> Detached(Get(h1, t, k), 0, 1, 2, 5)
    ensures Shielded(Set(WithMetadata(h1, 5, meta), 0, KStr(ModName), Table(5)), 0, 1, 2, 5)
  {
    var h2 := WithMetadata(h1, 5, meta);
    var h := Set(h2, 0, KStr(ModName), Table(5));
    forall t, k | !(t == 0 || t == 1 || t == 2)
      ensures Detached(Get(h, t, k), 0, 1, 2, 5)
    {
      assert Get(h, t, k) == Get(h2, t, k);
      if t != 5 || k !in MetadataKeys {
        assert Get(h2, t, k) == Get(h1, t, k);
      }
    }
  }

  /** The interpreter state after the prelude is shielded: besides the globals, `package` and
      `package.loaded`, only `package.preload`, `package.searchers` and the host module exist,
      and none of them holds a table. */
  lemma PreludeShielded(meta: Metadata)
    ensures Shielded(PreludeSpec(InitialHeap(), meta).1, 0, 1, 2, 5)
  {
    var h0 := InitialHeap();
    InitialModule();
    InitialModuleDetached();
    PreludeModule(h0, 1, 2);
    MetadataShielded(CreateModuleSpec(h0, 0, ModName).1, meta);
  }

  /** The prelude on a fresh interpreter succeeds and leaves an aliased, shielded state, with
      the host module at table 5. */
  lemma PreludeSheltered(meta: Metadata)
    ensures PreludeSpec(InitialHeap(), meta).0 == Ok(5) && Sheltered(PreludeSpec(InitialHeap(), meta).1, 1, 2, 5)
  {
    var h0 := InitialHeap();
    assert Get(h0, 0, KStr("package")) == Table(1) && Get(h0, 1, KStr("loaded")) == Table(2);
    assert Get(h0, 2, KStr(ModName)) == Nil;
    PreludeAliased(h0, meta, 1, 2);
    PreludeShielded(meta);
  }

  /** After `create_state` the global `dfim` and `package.loaded.dfim` are the same table,
      as long as no builtin's module is, or leaves a reference outside the three core tables
      to, the globals, `package`, `package.loaded` or `dfim`. */
  lemma CreateStateAliases(meta: Metadata, builtins: seq<(string, seq<bv8>)>, load: Loader)
    requires LoaderSound(load) && LoaderShields(load, 0, 1, 2, 5)
    ensures Aliased(CreateStateSpec(meta, builtins, load).1, 0, 1, 2, 5)
  {
    PreludeSheltered(meta);
    InstallKeepsAlias(PreludeSpec(InitialHeap(), meta).1, builtins, load, 1, 2, 5);
  }

  /** After a successful `create_state`, under the same condition, `dfim.<name>` holds the
      value loaded for builtin `i` on its pass, when its name holds no `.` and no later
      builtin's first segment is that name. */
  lemma CreateStatePlaces(meta: Metadata, builtins: seq<(string, seq<bv8>)>, load: Loader, i: nat)
    requires LoaderSound(load) && LoaderShields(load, 0, 1, 2, 5)
    requires CreateStateSpec(meta, builtins, load).0.Ok?
    requires i < |builtins| && '.' !in builtins[i].0
    requires forall j :: i < j < |builtins| ==> FirstSegment(builtins[j].0) != builtins[i].0
    ensures var h := PreludeSpec(InitialHeap(), meta).1;
      && RunPrefix(h, 0, builtins, InstallPass(0, load), i).Some?
      && var hi := RunPrefix(h, 0, builtins, InstallPass(0, load), i).value;
      && load(hi, BuiltinName(builtins[i].0), builtins[i].1).Ok?
      && Get(CreateStateSpec(meta, builtins, load).1, 5, KStr(builtins[i].0)) == load(hi, BuiltinName(builtins[i].0), builtins[i].1).value.0
  {
    PreludeSheltered(meta);
    InstallPlaces(PreludeSpec(InitialHeap(), meta).1, builtins, load, 1, 2, 5, i);
  }

  /** The first part of `create_state` on a fresh interpreter: the module `dfim` with its
      metadata, bound as a global. */
  method Prelude(lua: Lua, meta: Metadata) returns (r: Result<TableId, Failure>)
    requires lua.Valid() && lua.globals == 0
    modifies lua
    ensures lua.Valid() && (r, lua.heap) == PreludeSpec(old(lua.heap), meta)
  {
    var m := CreateModule(lua, ModName);
    if m.Err? {
      return Err(m.error);
    }
    lua.heap := WithMetadata(lua.heap, m.value, meta);
    SetValid(lua.heap, lua.globals, KStr(ModName), Table(m.value));
    lua.heap := Set(lua.heap, lua.globals, KStr(ModName), Table(m.value));
    r := m;
  }

  /** The loop of `create_state` over the builtins. */
  method InstallBuiltins(lua: Lua, builtins: seq<(string, seq<bv8>)>, load: Loader) returns (r: Result<(), Failure>)
    requires lua.Valid() && LoaderSound(load)
    modifies lua
    ensures lua.Valid() && (r, lua.heap) == InstallSpec(old(lua.heap), lua.globals, builtins, load)
  {
    ghost var h := lua.heap;
    var i := 0;
    while i < |builtins|
      invariant 0 <= i <= |builtins|
      invariant lua.Valid()
      invariant InstallSpec(h, lua.globals, builtins, load) == InstallSpec(lua.heap, lua.globals, builtins[i..], load)
    {
      assert builtins[i..][0] == builtins[i] && builtins[i..][1..] == builtins[i + 1..];
      var (name, data) := builtins[i];
      var modname := BuiltinName(name);
      var loaded := load(lua.heap, modname, data);
      if loaded.Err? {
        return Err(LuaFailure(loaded.error));
      }
      lua.heap := loaded.value.1;
      var stored := SetNestedField(lua, modname, loaded.value.0);
      if stored.Err? {
        return Err(stored.error);
      }
      i := i + 1;
    }
    r := Ok(());
  }

  /** `create_state`: a fresh interpreter, the prelude, then the loop over the builtins. */
  method CreateState(meta: Metadata, builtins: seq<(string, seq<bv8>)>, load: Loader) returns (lua: Lua, r: Result<(), Failure>)
    requires LoaderSound(load)
    ensures fresh(lua) && lua.Valid() && lua.globals == 0
    ensures (r, lua.heap) == CreateStateSpec(meta, builtins, load)
  {
    lua := new Lua();
    var m := Prelude(lua, meta);
    if m.Err? {
      return lua, Err(m.error);
    }
    r := InstallBuiltins(lua, builtins, load);
  }
}
