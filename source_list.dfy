/** The plugin source list exposed to guest code as `dfim.sources`: an insertion-ordered set
    of sources with `add`, `remove`, `contains` and `get`. */
module SourceList {
  import opened Wrappers
  import opened Guest
  import opened SourceValue

  /** No source occurs twice. */
  predicate Distinct(xs: seq<Source>)
  {
    forall i, j :: 0 <= i < j < |xs| ==> xs[i] != xs[j]
  }

  /** The list after `add v`: `v` is appended unless it is already present. It makes `v` a
      member and adds no other member, and it grows by one exactly when `v` was absent. */
  function Added(xs: seq<Source>, v: Source): (r: seq<Source>)
    ensures forall x :: x in r <==> x in xs || x == v
    ensures |r| == if v in xs then |xs| else |xs| + 1
  {
    if v in xs then xs else xs + [v]
  }

  /** The position of the first occurrence of `v` (`Iterator::position`). */
  function IndexOf(xs: seq<Source>, v: Source): (r: Option<nat>)
    ensures r.None? <==> v !in xs
    ensures r.Some? ==> r.value < |xs| && xs[r.value] == v && v !in xs[..r.value]
  {
    if xs == [] then None
    else if xs[0] == v then Some(0)
    else
      match IndexOf(xs[1..], v)
      case None => None
      case Some(i) =>
        assert xs[..i + 1] == [xs[0]] + xs[1..][..i];
        Some(i + 1)
  }

  /** The list after `remove v`: the first occurrence of `v` is deleted, if there is one. It
      shrinks by one exactly when `v` was present, and adds no member. */
  function Removed(xs: seq<Source>, v: Source): (r: seq<Source>)
    ensures |r| == if v in xs then |xs| - 1 else |xs|
    ensures forall x :: x in r ==> x in xs
  {
    match IndexOf(xs, v)
    case None => xs
    case Some(i) => xs[..i] + xs[i + 1..]
  }

  /** Adding keeps the list free of duplicates. */
  lemma AddedDistinct(xs: seq<Source>, v: Source)
    requires Distinct(xs)
    ensures Distinct(Added(xs, v))
    ensures v !in xs ==> Added(xs, v) == xs + [v]
  {
  }

  /** Adding a value already present changes nothing, so adding twice is adding once. */
  lemma AddedIdempotent(xs: seq<Source>, v: Source)
    ensures v in xs ==> Added(xs, v) == xs
    ensures Added(Added(xs, v), v) == Added(xs, v)
  {
  }

  /** Removing deletes one occurrence of `v` at the first place it occurs, keeping the order of
      the others; an absent value leaves the list as it is. */
  lemma RemovedShape(xs: seq<Source>, v: Source)
    ensures v !in xs ==> Removed(xs, v) == xs
    ensures v in xs ==> exists i ::
      && 0 <= i < |xs| && xs[i] == v && v !in xs[..i]
      && Removed(xs, v) == xs[..i] + xs[i + 1..]
    ensures multiset(Removed(xs, v)) == multiset(xs) - multiset{v}
  {
    match IndexOf(xs, v)
    case None =>
    case Some(i) =>
      assert xs == xs[..i] + [v] + xs[i + 1..];
      calc {
        multiset(xs);
        multiset(xs[..i]) + multiset{v} + multiset(xs[i + 1..]);
        multiset(xs[..i] + xs[i + 1..]) + multiset{v};
      }
  }

  /** Deleting position `i` of a list without duplicates keeps it without duplicates and removes
      exactly the member stored there. */
  lemma DeleteAt(xs: seq<Source>, i: nat)
    requires Distinct(xs) && i < |xs|
    ensures Distinct(xs[..i] + xs[i + 1..])
    ensures forall x :: x in xs[..i] + xs[i + 1..] <==> x in xs && x != xs[i]
  {
    var r := xs[..i] + xs[i + 1..];
    assert forall k :: 0 <= k < |r| ==> r[k] == if k < i then xs[k] else xs[k + 1];
    forall x
      ensures x in r <==> x in xs && x != xs[i]
    {
      if x in xs && x != xs[i] {
        var k :| 0 <= k < |xs| && xs[k] == x;
        if k < i {
          assert r[k] == x;
        } else {
          assert r[k - 1] == x;
        }
      }
    }
  }

  /** The first index of `v` is the one a left-to-right scan stops at. */
  lemma FirstIndex(xs: seq<Source>, v: Source, i: nat)
    requires i < |xs| && xs[i] == v && v !in xs[..i]
    ensures IndexOf(xs, v) == Some(i)
  {
  }

  /** On a list without duplicates, removing `v` leaves it without duplicates and without `v`. */
  lemma RemovedDistinct(xs: seq<Source>, v: Source)
    requires Distinct(xs)
    ensures Distinct(Removed(xs, v))
    ensures forall x :: x in Removed(xs, v) <==> x in xs && x != v
  {
    match IndexOf(xs, v)
    case None =>
    case Some(i) => DeleteAt(xs, i);
  }

  /** Removing what was just added to a list that lacked it gives the list back. */
  lemma RemoveAfterAdd(xs: seq<Source>, v: Source)
    requires v !in xs
    ensures Removed(Added(xs, v), v) == xs
  {
    var ys := xs + [v];
    FirstIndex(ys, v, |xs|);
    assert ys[..|xs|] == xs;
  }

  /** The list stored in a `Sources` userdata. */
  class Sources {
    var values: seq<Source>

    /** Free of duplicates, and made only of sources the guest conversion produces. */
    ghost predicate Valid()
      reads this
    {
      Distinct(values) && forall s :: s in values ==> Acceptable(s)
    }

    /** `Sources::default()`: the empty list. */
    constructor ()
      ensures Valid() && values == []
    {
      values := [];
    }

    /** `add`: appends `v` unless it is already in the list. The argument arrives converted by
        `Source::from_lua`, hence acceptable. */
    method Add(v: Source)
      requires Valid() && Acceptable(v)
      modifies this
      ensures Valid() && values == Added(old(values), v)
    {
      AddedDistinct(values, v);
      var present := Contains(v);
      if !present {
        values := values + [v];
      }
    }

    /** `remove`: deletes the first occurrence of `v` and reports whether there was one. */
    method Remove(v: Source) returns (removed: bool)
      requires Valid()
      modifies this
      ensures Valid() && values == Removed(old(values), v)
      ensures removed <==> v in old(values)
    {
      var i := 0;
      while i < |values| && values[i] != v
        invariant 0 <= i <= |values|
        invariant v !in values[..i]
      {
        assert values[..i + 1] == values[..i] + [values[i]];
        i := i + 1;
      }
      if i < |values| {
        FirstIndex(values, v, i);
        DeleteAt(values, i);
        values := values[..i] + values[i + 1..];
        removed := true;
      } else {
        assert values[..i] == values;
        removed := false;
      }
    }

    /** `contains`: membership under equality of sources. */
    method Contains(v: Source) returns (b: bool)
      ensures b <==> v in values
      ensures b <==> exists i :: 0 <= i < |values| && values[i] == v
    {
      b := false;
      var i := 0;
      while i < |values|
        invariant 0 <= i <= |values|
        invariant b <==> v in values[..i]
      {
        assert values[..i + 1] == values[..i] + [values[i]];
        b := b || values[i] == v;
        i := i + 1;
      }
      assert values[..i] == values;
    }

    /** `get`: a new sequence table holding the conversion of each source, the first at key
        1, in list order; the list itself is not touched. */
    method Get(lua: Lua) returns (r: Value)
      requires Valid() && lua.Valid()
      modifies lua
      ensures lua.Valid() && Extends(old(lua.heap), lua.heap)
      ensures r == Table(old(lua.heap).next) && r.id !in old(lua.heap).tables && r.id in lua.heap.tables
      ensures forall k :: k in lua.heap.tables[r.id] <==> k.KInt? && 1 <= k.i <= |values|
      ensures forall j :: 0 <= j < |values| ==>
        FromLua(lua.heap, Guest.Get(lua.heap, r.id, KInt(j + 1))) == Ok(values[j])
    {
      var (t, h) := NewTable(lua.heap);
      NewTableValid(lua.heap);
      lua.heap := h;
      var i := 0;
      while i < |values|
        invariant 0 <= i <= |values|
        invariant lua.Valid() && Extends(old(lua.heap), lua.heap)
        invariant t !in old(lua.heap).tables && t == old(lua.heap).next
        invariant Holds(lua.heap, t, values[..i])
      {
        StoreStep(lua.heap, t, values[..i], values[i]);
        assert values[..i + 1] == values[..i] + [values[i]];
        var (w, h1) := IntoLua(lua.heap, values[i]);
        SetValid(h1, t, KInt(i + 1), w);
        lua.heap := Set(h1, t, KInt(i + 1), w);
        i := i + 1;
      }
      assert values[..i] == values;
      r := Table(t);
      forall j | 0 <= j < |values|
        ensures FromLua(lua.heap, Guest.Get(lua.heap, r.id, KInt(j + 1))) == Ok(values[j])
      {
        assert values[j] in values;
        EncodesDecodes(lua.heap, t, Guest.Get(lua.heap, t, KInt(j + 1)), values[j]);
      }
    }
  }

  /** `w`, stored in table `t`, is the guest form of `s`: its string, or a table other than `t`
      holding exactly the entry `dir`. */
  predicate Encodes(h: Heap, t: TableId, w: Value, s: Source)
  {
    && (s.Repo? ==> w == Str(s.id))
    && (s.Directory? ==>
        w.Table? && w.id != t && w.id in h.tables && h.tables[w.id] == map[KStr("dir") := Str(s.path)])
  }

  /** Table `t` is the sequence of the guest forms of `vs`, keyed from 1. */
  ghost predicate Holds(h: Heap, t: TableId, vs: seq<Source>)
  {
    && t in h.tables
    && (forall k :: k in h.tables[t] <==> k.KInt? && 1 <= k.i <= |vs|)
    && (forall j :: 0 <= j < |vs| ==> Encodes(h, t, Get(h, t, KInt(j + 1)), vs[j]))
  }

  /** Storing the guest form of one more source at the next key extends the sequence. */
  lemma StoreStep(h: Heap, t: TableId, vs: seq<Source>, s: Source)
    requires WellFormed(h) && Holds(h, t, vs)
    ensures var (w, h1) := IntoLua(h, s);
      t in h1.tables && Holds(Set(h1, t, KInt(|vs| + 1), w), t, vs + [s])
  {
    var (w, h1) := IntoLua(h, s);
    var h2 := Set(h1, t, KInt(|vs| + 1), w);
    forall j | 0 <= j < |vs|
      ensures Encodes(h2, t, Get(h2, t, KInt(j + 1)), (vs + [s])[j])
    {
      assert Get(h2, t, KInt(j + 1)) == Get(h, t, KInt(j + 1));
    }
    assert Get(h2, t, KInt(|vs| + 1)) == w;
  }

  /** The guest form of an acceptable source converts back to it. */
  lemma EncodesDecodes(h: Heap, t: TableId, w: Value, s: Source)
    requires Encodes(h, t, w, s) && Acceptable(s)
    ensures FromLua(h, w) == Ok(s)
  {
    if s.Directory? {
      assert Get(h, w.id, KInt(1)) == Nil;
      assert Get(h, w.id, KStr("dir")) == Str(s.path);
    }
  }

  /** `register`: stores a new, empty list in `root.sources` as the userdata handle `uid`. */
  method Register(lua: Lua, root: TableId, uid: nat) returns (s: Sources)
    requires lua.Valid() && root in lua.heap.tables
    modifies lua
    ensures fresh(s) && s.Valid() && s.values == []
    ensures lua.Valid() && lua.heap == Set(old(lua.heap), root, KStr("sources"), UserData(uid))
  {
    s := new Sources();
    SetValid(lua.heap, root, KStr("sources"), UserData(uid));
    lua.heap := Set(lua.heap, root, KStr("sources"), UserData(uid));
  }
}
