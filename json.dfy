/** The conversion of a parsed JSON document into guest values behind `dfim.json.decode`
    (`from_json_impl` in `src/lua/api/json.rs`): scalars map to the matching guest value,
    arrays and objects to new tables filled entry by entry. */
module Json {
  import opened Wrappers
  import opened Guest

  /** A JSON number as `serde_json` offers it: its value as an `i64` when it is one, and as an
      `f64` when it can be read as one. */
  datatype JsonNumber = JsonNumber(asI64: Option<int>, asF64: Option<Float>)

  /** One member of an object, in the order the object yields its members. */
  datatype Member = Member(key: string, value: JValue)

  /** A parsed JSON value (`serde_json::Value`). */
  datatype JValue =
    | JNull
    | JBool(b: bool)
    | JNumber(n: JsonNumber)
    | JString(s: string)
    | JArray(items: seq<JValue>)
    | JObject(members: seq<Member>)

  /** The error text for a number that is neither an `i64` nor an `f64`; it is a plain
      string, so the number itself does not appear in it. */
  const Unrepresentable := "value `{n:?}` is not representable as i64 or f64"

  /** A number as a guest value: the integer form when there is one, else the float form. */
  function NumberValue(n: JsonNumber): (r: Option<Value>)
    ensures n.asI64.Some? ==> r == Some(Integer(n.asI64.value))
    ensures n.asI64.None? && n.asF64.Some? ==> r == Some(Number(n.asF64.value))
    ensures r.None? <==> n.asI64.None? && n.asF64.None?
  {
    match n.asI64
    case Some(x) => Some(Integer(x))
    case None =>
      match n.asF64
      case Some(f) => Some(Number(f))
      case None => None
  }

  // ---------------------------------------------------------------------------------------
  // the conversion, on the heap

  /** `from_json_impl(lua, value)`: the guest value of `j` and the heap after the tables it
      needs have been created and filled. */
  function Convert(h: Heap, j: JValue): (r: (Result<Value, LuaError>, Heap))
    requires WellFormed(h)
    ensures Extends(h, r.1) && WellFormed(r.1)
    ensures r.0.Ok? ==> InHeap(r.1, r.0.value)
    ensures r.0.Err? ==> r.0.error == External(Unrepresentable)
    decreases j, 1
  {
    match j
    case JNull => (Ok(Nil), h)
    case JBool(b) => (Ok(Boolean(b)), h)
    case JNumber(n) =>
      (match NumberValue(n)
       case Some(v) => Ok(v)
       case None => Err(External(Unrepresentable)), h)
    case JString(s) => (Ok(Str(s)), h)
    case JArray(items) =>
      var (t, h1) := NewTable(h);
      NewTableValid(h);
      var (fr, h2) := FillArray(h1, t, items, 0);
      (if fr.Err? then Err(fr.error) else Ok(Table(t)), h2)
    case JObject(ms) =>
      var (t, h1) := NewTable(h);
      NewTableValid(h);
      var (fr, h2) := FillObject(h1, t, ms);
      (if fr.Err? then Err(fr.error) else Ok(Table(t)), h2)
  }

  /** The loop over an array: element `i` of `items` is converted and stored at index
      `k + i + 1` of table `t`; the first failure ends the loop. */
  function FillArray(h: Heap, t: TableId, items: seq<JValue>, k: nat): (r: (Result<(), LuaError>, Heap))
    requires WellFormed(h) && t in h.tables
    ensures WellFormed(r.1) && h.next <= r.1.next && t in r.1.tables
    ensures forall u :: u in h.tables && u != t ==> u in r.1.tables && r.1.tables[u] == h.tables[u]
    ensures r.0.Err? ==> r.0.error == External(Unrepresentable)
    decreases items, 0
  {
    if items == [] then (Ok(()), h)
    else
      var (v, h1) := Convert(h, items[0]);
      if v.Err? then (Err(v.error), h1)
      else
        SetValid(h1, t, KInt(k + 1), v.value);
        FillArray(Set(h1, t, KInt(k + 1), v.value), t, items[1..], k + 1)
  }

  /** The loop over an object: each member's value is converted and stored under its key in
      table `t`, in member order; the first failure ends the loop. */
  function FillObject(h: Heap, t: TableId, ms: seq<Member>): (r: (Result<(), LuaError>, Heap))
    requires WellFormed(h) && t in h.tables
    ensures WellFormed(r.1) && h.next <= r.1.next && t in r.1.tables
    ensures forall u :: u in h.tables && u != t ==> u in r.1.tables && r.1.tables[u] == h.tables[u]
    ensures r.0.Err? ==> r.0.error == External(Unrepresentable)
    decreases ms, 0
  {
    if ms == [] then (Ok(()), h)
    else
      var (v, h1) := Convert(h, ms[0].value);
      if v.Err? then (Err(v.error), h1)
      else
        SetValid(h1, t, KStr(ms[0].key), v.value);
        FillObject(Set(h1, t, KStr(ms[0].key), v.value), t, ms[1..])
  }

  // ---------------------------------------------------------------------------------------
  // the conversion, on the interpreter

  /** `from_json_impl` on the interpreter: recursion over the value, with a loop filling each
      new table. */
  method FromJson(lua: Lua, j: JValue) returns (r: Result<Value, LuaError>)
    requires lua.Valid()
    modifies lua
    ensures lua.Valid() && (r, lua.heap) == Convert(old(lua.heap), j)
    decreases j, 1
  {
    match j {
      case JNull => r := Ok(Nil);
      case JBool(b) => r := Ok(Boolean(b));
      case JNumber(n) =>
        if n.asI64.Some? {
          r := Ok(Integer(n.asI64.value));
        } else if n.asF64.Some? {
          r := Ok(Number(n.asF64.value));
        } else {
          r := Err(External(Unrepresentable));
        }
      case JString(s) => r := Ok(Str(s));
      case JArray(items) =>
        var (t, h1) := NewTable(lua.heap);
        NewTableValid(lua.heap);
        lua.heap := h1;
        var fr := FillArrayLoop(lua, t, items);
        r := if fr.Err? then Err(fr.error) else Ok(Table(t));
      case JObject(ms) =>
        var (t, h1) := NewTable(lua.heap);
        NewTableValid(lua.heap);
        lua.heap := h1;
        var fr := FillObjectLoop(lua, t, ms);
        r := if fr.Err? then Err(fr.error) else Ok(Table(t));
    }
  }

  /** The loop of `from_json_impl` over an array, storing element `i` at index `i + 1`. */
  method FillArrayLoop(lua: Lua, t: TableId, items: seq<JValue>) returns (r: Result<(), LuaError>)
    requires lua.Valid() && t in lua.heap.tables
    modifies lua
    ensures lua.Valid() && (r, lua.heap) == FillArray(old(lua.heap), t, items, 0)
    decreases items, 0
  {
    var i := 0;
    assert items[0..] == items;
    while i < |items|
      invariant 0 <= i <= |items|
      invariant lua.Valid() && t in lua.heap.tables
      invariant FillArray(old(lua.heap), t, items, 0) == FillArray(lua.heap, t, items[i..], i)
    {
      assert items[i..][0] == items[i] && items[i..][1..] == items[i + 1..];
      var v := FromJson(lua, items[i]);
      if v.Err? {
        return Err(v.error);
      }
      SetValid(lua.heap, t, KInt(i + 1), v.value);
      lua.heap := Set(lua.heap, t, KInt(i + 1), v.value);
      i := i + 1;
    }
    return Ok(());
  }

  /** The loop of `from_json_impl` over an object, storing each member under its key. */
  method FillObjectLoop(lua: Lua, t: TableId, ms: seq<Member>) returns (r: Result<(), LuaError>)
    requires lua.Valid() && t in lua.heap.tables
    modifies lua
    ensures lua.Valid() && (r, lua.heap) == FillObject(old(lua.heap), t, ms)
    decreases ms, 0
  {
    var i := 0;
    assert ms[0..] == ms;
    while i < |ms|
      invariant 0 <= i <= |ms|
      invariant lua.Valid() && t in lua.heap.tables
      invariant FillObject(old(lua.heap), t, ms) == FillObject(lua.heap, t, ms[i..])
    {
      assert ms[i..][0] == ms[i] && ms[i..][1..] == ms[i + 1..];
      var v := FromJson(lua, ms[i].value);
      if v.Err? {
        return Err(v.error);
      }
      SetValid(lua.heap, t, KStr(ms[i].key), v.value);
      lua.heap := Set(lua.heap, t, KStr(ms[i].key), v.value);
      i := i + 1;
    }
    return Ok(());
  }


  // ---------------------------------------------------------------------------------------
  // what the result means

  /** Every number in `j` is an `i64` or an `f64`. */
  predicate Representable(j: JValue)
    decreases j
  {
    match j
    case JNumber(n) => n.asI64.Some? || n.asF64.Some?
    case JArray(items) => forall i :: 0 <= i < |items| ==> Representable(items[i])
    case JObject(ms) => forall i :: 0 <= i < |ms| ==> Representable(ms[i].value)
    case _ => true
  }

  /** Member `i` is the last one with its key, so its value is the one the table keeps. */
  predicate LastOf(ms: seq<Member>, i: nat)
  {
    forall i' :: i < i' < |ms| ==> ms[i'].key != ms[i].key
  }

  /** `v` is the guest form of `j` in `h`, built from tables numbered `lo` or above: scalars
      match, an array's table holds element `i` at `i + 1` and nothing else, an object's
      table holds the value of each key's last member under that key and nothing else.
      `null` is `nil`, so a `null` element or member leaves its key absent. */
  ghost predicate Represents(h: Heap, v: Value, j: JValue, lo: nat)
    decreases j
  {
    match j
    case JNull => v == Nil
    case JBool(b) => v == Boolean(b)
    case JNumber(n) => Some(v) == NumberValue(n)
    case JString(s) => v == Str(s)
    case JArray(items) =>
      && v.Table? && lo <= v.id && v.id in h.tables
      && (forall i :: 0 <= i < |items| ==> Represents(h, Get(h, v.id, KInt(i + 1)), items[i], lo))
      && (forall key: Key :: key in h.tables[v.id] ==> key.KInt? && 1 <= key.i <= |items|)
    case JObject(ms) =>
      && v.Table? && lo <= v.id && v.id in h.tables
      && (forall i :: 0 <= i < |ms| && LastOf(ms, i) ==>
            Represents(h, Get(h, v.id, KStr(ms[i].key)), ms[i].value, lo))
      && (forall key: Key :: key in h.tables[v.id] ==> key.KStr? && exists i :: 0 <= i < |ms| && ms[i].key == key.s)
  }

  /** Whether `v` represents `j` depends only on the tables numbered `lo` or above. */
  lemma {:induction false} RepresentsFrame(h: Heap, h': Heap, v: Value, j: JValue, lo: nat)
    requires Represents(h, v, j, lo)
    requires forall u :: lo <= u && u in h.tables ==> u in h'.tables && h'.tables[u] == h.tables[u]
    ensures Represents(h', v, j, lo)
    decreases j
  {
    match j
    case JArray(items) =>
      forall i | 0 <= i < |items|
        ensures Represents(h', Get(h', v.id, KInt(i + 1)), items[i], lo)
      {
        RepresentsFrame(h, h', Get(h, v.id, KInt(i + 1)), items[i], lo);
      }
    case JObject(ms) =>
      forall i | 0 <= i < |ms| && LastOf(ms, i)
        ensures Represents(h', Get(h', v.id, KStr(ms[i].key)), ms[i].value, lo)
      {
        RepresentsFrame(h, h', Get(h, v.id, KStr(ms[i].key)), ms[i].value, lo);
      }
    case _ =>
  }

  /** A representation from tables above `lo'` is one from tables above any lower bound. */
  lemma {:induction false} RepresentsWeaken(h: Heap, v: Value, j: JValue, lo: nat, lo': nat)
    requires Represents(h, v, j, lo') && lo <= lo'
    ensures Represents(h, v, j, lo)
    decreases j
  {
    match j
    case JArray(items) =>
      forall i | 0 <= i < |items|
        ensures Represents(h, Get(h, v.id, KInt(i + 1)), items[i], lo)
      {
        RepresentsWeaken(h, Get(h, v.id, KInt(i + 1)), items[i], lo, lo');
      }
    case JObject(ms) =>
      forall i | 0 <= i < |ms| && LastOf(ms, i)
        ensures Represents(h, Get(h, v.id, KStr(ms[i].key)), ms[i].value, lo)
      {
        RepresentsWeaken(h, Get(h, v.id, KStr(ms[i].key)), ms[i].value, lo, lo');
      }
    case _ =>
  }

  /** Filling an array touches only the indices `k + 1 .. k + |items|` of `t`. */
  lemma {:induction false} FillArrayKeys(h: Heap, t: TableId, items: seq<JValue>, k: nat)
    requires WellFormed(h) && t in h.tables
    ensures var r := FillArray(h, t, items, k);
      forall key: Key :: !(key.KInt? && k + 1 <= key.i <= k + |items|) ==> Get(r.1, t, key) == Get(h, t, key)
    ensures var r := FillArray(h, t, items, k);
      forall key: Key :: key in r.1.tables[t] ==> key in h.tables[t] || (key.KInt? && k + 1 <= key.i <= k + |items|)
    decreases items
  {
    if items != [] {
      var (v, h1) := Convert(h, items[0]);
      if v.Ok? {
        var h2 := Set(h1, t, KInt(k + 1), v.value);
        SetValid(h1, t, KInt(k + 1), v.value);
        FillArrayKeys(h2, t, items[1..], k + 1);
        assert h1.tables[t] == h.tables[t];
      }
    }
  }

  /** Filling an object leaves every key of `t` that is not a member's key as it was. */
  lemma {:induction false} FillObjectKeeps(h: Heap, t: TableId, ms: seq<Member>)
    requires WellFormed(h) && t in h.tables
    ensures var r := FillObject(h, t, ms);
      forall key: Key :: Unlisted(ms, key) ==> Get(r.1, t, key) == Get(h, t, key)
    decreases ms
  {
    if ms != [] {
      var (v, h1) := Convert(h, ms[0].value);
      if v.Ok? {
        var h2 := Set(h1, t, KStr(ms[0].key), v.value);
        SetValid(h1, t, KStr(ms[0].key), v.value);
        FillObjectKeeps(h2, t, ms[1..]);
        assert h1.tables[t] == h.tables[t];
        var r := FillObject(h, t, ms);
        forall key: Key | Unlisted(ms, key)
          ensures Get(r.1, t, key) == Get(h, t, key)
        {
          UnlistedTail(ms, key);
        }
      }
    }
  }

  /** `key` is not the key of any member. */
  predicate Unlisted(ms: seq<Member>, key: Key)
  {
    key.KInt? || forall i :: 0 <= i < |ms| ==> ms[i].key != key.s
  }

  lemma UnlistedTail(ms: seq<Member>, key: Key)
    requires ms != [] && Unlisted(ms, key)
    ensures Unlisted(ms[1..], key) && key != KStr(ms[0].key)
  {
    assert forall i :: 0 <= i < |ms[1..]| ==> ms[1..][i].key == ms[i + 1].key;
  }

  /** Filling an object adds no key to `t` but its members' keys. */
  lemma {:induction false} FillObjectKeys(h: Heap, t: TableId, ms: seq<Member>)
    requires WellFormed(h) && t in h.tables
    ensures var r := FillObject(h, t, ms);
      forall key: Key :: key in r.1.tables[t] ==> key in h.tables[t] || (key.KStr? && exists i :: 0 <= i < |ms| && ms[i].key == key.s)
    decreases ms
  {
    if ms != [] {
      var (v, h1) := Convert(h, ms[0].value);
      if v.Ok? {
        var h2 := Set(h1, t, KStr(ms[0].key), v.value);
        SetValid(h1, t, KStr(ms[0].key), v.value);
        FillObjectKeys(h2, t, ms[1..]);
        assert h1.tables[t] == h.tables[t];
        var r := FillObject(h, t, ms);
        forall key: Key | key in r.1.tables[t]
          ensures key in h.tables[t] || (key.KStr? && exists i :: 0 <= i < |ms| && ms[i].key == key.s)
        {
          if key !in h.tables[t] {
            if key in h2.tables[t] {
              assert key == KStr(ms[0].key);
            } else {
              var i :| 0 <= i < |ms[1..]| && ms[1..][i].key == key.s;
              assert ms[i + 1].key == key.s;
            }
          }
        }
      }
    }
  }

  /** A successful conversion yields a representation of the document, built only from tables
      that did not exist before. */
  lemma {:induction false} ConvertRepresents(h: Heap, j: JValue)
    requires WellFormed(h)
    ensures var r := Convert(h, j); r.0.Ok? ==> Represents(r.1, r.0.value, j, h.next)
    decreases j, 1
  {
    var r := Convert(h, j);
    match j
    case JArray(items) =>
      var (t, h1) := NewTable(h);
      NewTableValid(h);
      if r.0.Ok? {
        FillArrayRepresents(h1, t, items, 0, h1.next);
        FillArrayKeys(h1, t, items, 0);
        forall i | 0 <= i < |items|
          ensures Represents(r.1, Get(r.1, t, KInt(i + 1)), items[i], h.next)
        {
          assert 0 + i + 1 == i + 1;
          RepresentsWeaken(r.1, Get(r.1, t, KInt(i + 1)), items[i], h.next, h1.next);
        }
      }
    case JObject(ms) =>
      var (t, h1) := NewTable(h);
      NewTableValid(h);
      if r.0.Ok? {
        FillObjectRepresents(h1, t, ms, h1.next);
        FillObjectKeys(h1, t, ms);
        forall i | 0 <= i < |ms| && LastOf(ms, i)
          ensures Represents(r.1, Get(r.1, t, KStr(ms[i].key)), ms[i].value, h.next)
        {
          RepresentsWeaken(r.1, Get(r.1, t, KStr(ms[i].key)), ms[i].value, h.next, h1.next);
        }
      }
    case _ =>
  }

  /** The first element stored by a successful array loop stays its representation. */
  lemma FillArrayHead(h: Heap, t: TableId, items: seq<JValue>, k: nat, lo: nat)
    requires WellFormed(h) && t in h.tables && t < lo <= h.next && items != []
    requires FillArray(h, t, items, k).0.Ok?
    ensures var r := FillArray(h, t, items, k); Represents(r.1, Get(r.1, t, KInt(k + 1)), items[0], lo)
    decreases items, 0
  {
    var r := FillArray(h, t, items, k);
    var (v, h1) := Convert(h, items[0]);
    ConvertRepresents(h, items[0]);
    RepresentsWeaken(h1, v.value, items[0], lo, h.next);
    var h2 := Set(h1, t, KInt(k + 1), v.value);
    SetValid(h1, t, KInt(k + 1), v.value);
    RepresentsFrame(h1, h2, v.value, items[0], lo);
    assert r == FillArray(h2, t, items[1..], k + 1);
    RepresentsFrame(h2, r.1, v.value, items[0], lo);
    FillArrayKeys(h2, t, items[1..], k + 1);
  }

  /** Table `t` holds the representation of element `i` of `items` at index `k + i + 1`. */
  ghost predicate HoldsFrom(h: Heap, t: TableId, items: seq<JValue>, k: nat, lo: nat)
  {
    forall i :: 0 <= i < |items| ==> Represents(h, Get(h, t, KInt(k + i + 1)), items[i], lo)
  }

  lemma HoldsFromCons(h: Heap, t: TableId, items: seq<JValue>, k: nat, lo: nat)
    requires items != []
    requires Represents(h, Get(h, t, KInt(k + 1)), items[0], lo)
    requires HoldsFrom(h, t, items[1..], k + 1, lo)
    ensures HoldsFrom(h, t, items, k, lo)
  {
    forall i | 1 <= i < |items|
      ensures Represents(h, Get(h, t, KInt(k + i + 1)), items[i], lo)
    {
      assert items[i] == items[1..][i - 1];
      assert k + i + 1 == (k + 1) + (i - 1) + 1;
    }
  }

  /** The elements stored by a successful array loop represent the array's elements. */
  lemma {:induction false} FillArrayRepresents(h: Heap, t: TableId, items: seq<JValue>, k: nat, lo: nat)
    requires WellFormed(h) && t in h.tables && t < lo <= h.next
    ensures var r := FillArray(h, t, items, k); r.0.Ok? ==> HoldsFrom(r.1, t, items, k, lo)
    decreases items, 1
  {
    var r := FillArray(h, t, items, k);
    if items != [] && r.0.Ok? {
      FillArrayHead(h, t, items, k, lo);
      var (v, h1) := Convert(h, items[0]);
      var h2 := Set(h1, t, KInt(k + 1), v.value);
      SetValid(h1, t, KInt(k + 1), v.value);
      assert r == FillArray(h2, t, items[1..], k + 1);
      FillArrayRepresents(h2, t, items[1..], k + 1, lo);
      HoldsFromCons(r.1, t, items, k, lo);
    }
  }

  /** The values stored by a successful object loop represent the members that are the last
      with their key. */
  lemma {:induction false} FillObjectRepresents(h: Heap, t: TableId, ms: seq<Member>, lo: nat)
    requires WellFormed(h) && t in h.tables && t < lo <= h.next
    ensures var r := FillObject(h, t, ms);
      r.0.Ok? ==> forall i :: 0 <= i < |ms| && LastOf(ms, i) ==>
        Represents(r.1, Get(r.1, t, KStr(ms[i].key)), ms[i].value, lo)
    decreases ms, 0
  {
    if ms != [] {
      var r := FillObject(h, t, ms);
      var (v, h1) := Convert(h, ms[0].value);
      if v.Ok? {
        ConvertRepresents(h, ms[0].value);
        RepresentsWeaken(h1, v.value, ms[0].value, lo, h.next);
        var h2 := Set(h1, t, KStr(ms[0].key), v.value);
        SetValid(h1, t, KStr(ms[0].key), v.value);
        RepresentsFrame(h1, h2, v.value, ms[0].value, lo);
        assert r == FillObject(h2, t, ms[1..]);
        RepresentsFrame(h2, r.1, v.value, ms[0].value, lo);
        FillObjectKeeps(h2, t, ms[1..]);
        FillObjectRepresents(h2, t, ms[1..], lo);
        if r.0.Ok? {
          forall i | 0 <= i < |ms| && LastOf(ms, i)
            ensures Represents(r.1, Get(r.1, t, KStr(ms[i].key)), ms[i].value, lo)
          {
            if i == 0 {
              LastOfFirst(ms);
              assert Get(r.1, t, KStr(ms[0].key)) == v.value;
            } else {
              LastOfTail(ms, i);
            }
          }
        }
      }
    }
  }

  /** When the first member is the last with its key, no later member has that key. */
  lemma LastOfFirst(ms: seq<Member>)
    requires ms != [] && LastOf(ms, 0)
    ensures forall i :: 0 <= i < |ms[1..]| ==> ms[1..][i].key != ms[0].key
  {
    assert forall i :: 0 <= i < |ms[1..]| ==> ms[1..][i] == ms[i + 1];
  }

  /** A later member that is the last with its key is so among the members after the first. */
  lemma LastOfTail(ms: seq<Member>, i: nat)
    requires 0 < i < |ms| && LastOf(ms, i)
    ensures ms[i] == ms[1..][i - 1] && LastOf(ms[1..], i - 1)
  {
    forall i' | i - 1 < i' < |ms[1..]|
      ensures ms[1..][i'].key != ms[1..][i - 1].key
    {
      assert ms[1..][i'] == ms[i' + 1];
    }
  }

  /** The conversion fails exactly when some number in the document is neither an `i64` nor
      an `f64`; a failure anywhere inside fails the whole document. */
  lemma {:induction false} ConvertSucceeds(h: Heap, j: JValue)
    requires WellFormed(h)
    ensures Convert(h, j).0.Ok? <==> Representable(j)
    decreases j, 1
  {
    match j
    case JArray(items) =>
      var (t, h1) := NewTable(h);
      NewTableValid(h);
      FillArraySucceeds(h1, t, items, 0);
    case JObject(ms) =>
      var (t, h1) := NewTable(h);
      NewTableValid(h);
      FillObjectSucceeds(h1, t, ms);
    case _ =>
  }

  lemma {:induction false} FillArraySucceeds(h: Heap, t: TableId, items: seq<JValue>, k: nat)
    requires WellFormed(h) && t in h.tables
    ensures FillArray(h, t, items, k).0.Ok? <==> forall i :: 0 <= i < |items| ==> Representable(items[i])
    decreases items, 0
  {
    if items != [] {
      var (v, h1) := Convert(h, items[0]);
      ConvertSucceeds(h, items[0]);
      if v.Ok? {
        SetValid(h1, t, KInt(k + 1), v.value);
        FillArraySucceeds(Set(h1, t, KInt(k + 1), v.value), t, items[1..], k + 1);
      }
      ItemsCons(items);
    }
  }

  lemma ItemsCons(items: seq<JValue>)
    requires items != []
    ensures (forall i :: 0 <= i < |items| ==> Representable(items[i])) <==>
      Representable(items[0]) && forall i :: 0 <= i < |items[1..]| ==> Representable(items[1..][i])
  {
    assert forall i :: 1 <= i < |items| ==> items[i] == items[1..][i - 1];
  }

  lemma MembersCons(ms: seq<Member>)
    requires ms != []
    ensures (forall i :: 0 <= i < |ms| ==> Representable(ms[i].value)) <==>
      Representable(ms[0].value) && forall i :: 0 <= i < |ms[1..]| ==> Representable(ms[1..][i].value)
  {
    assert forall i :: 1 <= i < |ms| ==> ms[i] == ms[1..][i - 1];
  }

  lemma {:induction false} FillObjectSucceeds(h: Heap, t: TableId, ms: seq<Member>)
    requires WellFormed(h) && t in h.tables
    ensures FillObject(h, t, ms).0.Ok? <==> forall i :: 0 <= i < |ms| ==> Representable(ms[i].value)
    decreases ms, 0
  {
    if ms != [] {
      var (v, h1) := Convert(h, ms[0].value);
      ConvertSucceeds(h, ms[0].value);
      if v.Ok? {
        SetValid(h1, t, KStr(ms[0].key), v.value);
        FillObjectSucceeds(Set(h1, t, KStr(ms[0].key), v.value), t, ms[1..]);
      }
      MembersCons(ms);
    }
  }
}
