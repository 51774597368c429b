/** The part of the embedded LuaJIT runtime (through `mlua`) that the host code relies on:
    guest values, tables living in a heap and addressed by identity, the string coercion
    `mlua` applies when a value is read as a string, and the interpreter object itself. */
module Guest {
  import opened Wrappers
  import opened Text

  /** The identity of a table: two values holding the same id are the same table. */
  type TableId = nat

  /** A double. The model never computes with floats; it keeps only the text LuaJIT renders
      for one when coercing it to a string. */
  datatype Float = Float(text: string)

  /** The keys the host code uses: integer indices and string names. */
  datatype Key = KInt(i: int) | KStr(s: string)

  /** A guest value (`mlua::Value`). Functions and userdata are opaque handles. */
  datatype Value =
    | Nil
    | Boolean(b: bool)
    | Integer(i: int)
    | Number(f: Float)
    | Str(s: string)
    | Table(id: TableId)
    | Function(fid: nat)
    | UserData(uid: nat)

  /** `Value::type_name`. */
  function TypeName(v: Value): string
  {
    match v
    case Nil => "nil"
    case Boolean(_) => "boolean"
    case Integer(_) => "integer"
    case Number(_) => "number"
    case Str(_) => "string"
    case Table(_) => "table"
    case Function(_) => "function"
    case UserData(_) => "userdata"
  }

  /** The errors of `mlua` the host code raises or propagates. */
  datatype LuaError =
    | FromLuaConversionError(from: string, to: string, message: Option<string>)
    | RuntimeError(text: string)
    | External(text: string)

  /** Reading a value as a string (`FromLua` for `mlua::String` and `String`): strings as they
      are, numbers through Lua's number-to-string coercion, anything else fails. */
  function CoerceString(v: Value): (r: Option<string>)
    ensures v.Str? ==> r == Some(v.s)
    ensures r.Some? <==> (v.Str? || v.Integer? || v.Number?)
  {
    match v
    case Str(s) => Some(s)
    case Integer(i) => Some(IntToDecimal(i))
    case Number(f) => Some(f.text)
    case _ => None
  }

  // ---------------------------------------------------------------------------------------
  // the table heap

  type Contents = map<Key, Value>

  /** All tables of one interpreter, by identity, and the next unused identity. */
  datatype Heap = Heap(tables: map<TableId, Contents>, next: TableId)

  /** A value is usable in `h` when, if it is a table, that table exists. */
  predicate InHeap(h: Heap, v: Value)
  {
    v.Table? ==> v.id in h.tables
  }

  /** The heap invariant: identities below `next` only, and no entry refers to a table that
      does not exist. */
  predicate WellFormed(h: Heap)
  {
    && (forall t :: t in h.tables ==> t < h.next)
    && (forall t, k :: t in h.tables && k in h.tables[t] ==> InHeap(h, h.tables[t][k]))
  }

  /** `t[k]` (a raw read; the model has no metatables): absent keys read as `nil`. */
  function Get(h: Heap, t: TableId, k: Key): Value
  {
    if t in h.tables && k in h.tables[t] then h.tables[t][k] else Nil
  }

  /** `t[k] = v` (a raw write): storing `nil` removes the key. */
  function Set(h: Heap, t: TableId, k: Key, v: Value): (h': Heap)
    requires t in h.tables
    ensures h'.next == h.next && h'.tables.Keys == h.tables.Keys
    ensures Get(h', t, k) == v
    ensures forall t': TableId, k': Key :: (t', k') != (t, k) ==> Get(h', t', k') == Get(h, t', k')
    ensures forall t' :: t' in h.tables && t' != t ==> h'.tables[t'] == h.tables[t']
  {
    var c := if v == Nil then h.tables[t] - {k} else h.tables[t][k := v];
    h.(tables := h.tables[t := c])
  }

  /** `lua.create_table()`: a new, empty table with a fresh identity. */
  function NewTable(h: Heap): (r: (TableId, Heap))
    ensures WellFormed(h) ==> r.0 !in h.tables
    ensures r.0 == h.next
    ensures r.1 == Heap(h.tables[h.next := map[]], h.next + 1)
  {
    (h.next, Heap(h.tables[h.next := map[]], h.next + 1))
  }

  /** `h'` keeps every table of `h` with the same contents. */
  predicate Extends(h: Heap, h': Heap)
  {
    && h.next <= h'.next
    && (forall t :: t in h.tables ==> t in h'.tables && h'.tables[t] == h.tables[t])
  }

  lemma SetValid(h: Heap, t: TableId, k: Key, v: Value)
    requires WellFormed(h) && t in h.tables && InHeap(h, v)
    ensures WellFormed(Set(h, t, k, v))
  {
  }

  lemma NewTableValid(h: Heap)
    requires WellFormed(h)
    ensures WellFormed(NewTable(h).1) && NewTable(h).0 !in h.tables
    ensures Extends(h, NewTable(h).1)
  {
  }

  /** Reading a table as a table (`FromLua` for `mlua::Table`), as in
      `lua.globals().get::<_, Table>("package")`. */
  function GetTable(h: Heap, t: TableId, name: string): (r: Result<TableId, LuaError>)
    ensures r.Ok? <==> Get(h, t, KStr(name)).Table?
    ensures r.Ok? ==> Get(h, t, KStr(name)) == Table(r.value)
  {
    match Get(h, t, KStr(name))
    case Table(id) => Ok(id)
    case other => Err(FromLuaConversionError(TypeName(other), "table", None))
  }

  /** The table `package[field]` of the interpreter whose globals table is `g`. */
  function PackageTable(h: Heap, g: TableId, field: string): Result<TableId, LuaError>
  {
    match GetTable(h, g, "package")
    case Err(e) => Err(e)
    case Ok(p) => GetTable(h, p, field)
  }

  /** The modelled tables of a fresh interpreter, without the standard libraries: globals (0)
      holding `package` (1), which holds the `loaded` (2) and `preload` (3) tables and the
      `searchers` sequence (4) with the four standard searchers. */
  function InitialHeap(): (h: Heap)
    ensures WellFormed(h) && 0 in h.tables
    ensures PackageTable(h, 0, "loaded") == Ok(2) && PackageTable(h, 0, "preload") == Ok(3)
    ensures PackageTable(h, 0, "searchers") == Ok(4)
    ensures h.next == 5 && h.tables.Keys == {0, 1, 2, 3, 4} && h.tables[2] == map[] && h.tables[3] == map[]
    ensures h.tables[4] == StandardSearchers
  {
    InitialWellFormed();
    InitialPackage();
    Heap(InitialTables, 5)
  }

  /** The four standard searchers, at `1..4`. */
  const StandardSearchers: Contents := map[KInt(1) := Function(0), KInt(2) := Function(1), KInt(3) := Function(2), KInt(4) := Function(3)]

  /** The `package` table of a fresh interpreter. */
  const InitialPackageContents: Contents := map[KStr("loaded") := Table(2), KStr("preload") := Table(3), KStr("searchers") := Table(4)]

  const InitialTables: map<TableId, Contents> := map[
    0 := map[KStr("package") := Table(1)],
    1 := InitialPackageContents,
    2 := map[],
    3 := map[],
    4 := StandardSearchers]

  lemma InitialWellFormed()
    ensures WellFormed(Heap(InitialTables, 5))
    ensures InitialTables.Keys == {0, 1, 2, 3, 4}
  {
    var h := Heap(InitialTables, 5);
    assert InitialTables.Keys == {0, 1, 2, 3, 4};
    forall t, k | t in h.tables && k in h.tables[t]
      ensures InHeap(h, h.tables[t][k])
    {
      assert t == 0 || t == 1 || t == 4;
    }
  }

  lemma InitialPackage()
    ensures var h := Heap(InitialTables, 5);
      && PackageTable(h, 0, "loaded") == Ok(2) && PackageTable(h, 0, "preload") == Ok(3)
      && PackageTable(h, 0, "searchers") == Ok(4)
  {
    var h := Heap(InitialTables, 5);
    assert GetTable(h, 0, "package") == Ok(1);
    assert h.tables[1] == InitialPackageContents;
  }

  // ---------------------------------------------------------------------------------------
  // the interpreter

  /** An interpreter (`mlua::Lua`): its tables and the identity of its globals table. */
  class Lua {
    var heap: Heap
    const globals: TableId

    ghost predicate Valid()
      reads this
    {
      WellFormed(heap) && globals in heap.tables
    }

    /** `Lua::new()`. */
    constructor ()
      ensures Valid() && globals == 0 && heap == InitialHeap()
    {
      globals := 0;
      heap := InitialHeap();
    }
  }
}
