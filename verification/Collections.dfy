/**
 Lists and maps as objects that change in place (internal/vtl/value.go:30-109, internal/vtl/methods.go:238-344):
 each method leaves behind the cell that the evaluator's store gets.
 */
module Collections {
  import opened Common
  import opened Values
  import opened Runtime
  import opened Methods

  /** An insertion-ordered map. */
  class Map {
    var keys: seq<string>
    var vals: map<string, Value>

    constructor ()
      ensures Cell() == MapCell([], map[]) && Valid()
    {
      keys, vals := [], map[];
    }

    /** The keys are distinct, and are those of the values. */
    ghost predicate Valid()
      reads this
    {
      && (forall i, j :: 0 <= i < j < |keys| ==> keys[i] != keys[j])
      && (forall k :: k in keys <==> k in vals)
    }

    ghost function Cell(): (c: Cell)
      reads this
      ensures c.MapCell?
    {
      MapCell(keys, vals)
    }

    /** A new key goes last, an old one keeps its place; the value before is returned. */
    method Put(key: string, v: Value) returns (prev: Value)
      requires Valid()
      modifies this
      ensures Valid() && Cell() == PutCell(old(Cell()), key, v)
      ensures prev == if key in old(vals) then old(vals)[key] else Nil
    {
      prev := if key in vals then vals[key] else Nil;
      if key !in vals { keys := keys + [key]; }
      vals := vals[key := v];
    }

    /** Takes a key out of the order and the values; the value before is returned. */
    method Remove(key: string) returns (prev: Value)
      requires Valid()
      modifies this
      ensures Valid() && Cell() == RemoveKey(old(Cell()), key)
      ensures prev == if key in old(vals) then old(vals)[key] else Nil
    {
      if key !in vals { return Nil; }
      prev := vals[key];
      var i := PlaceOf(keys, key);
      RemovedKeys(keys, i);
      vals := vals - {key};
      keys := keys[..i] + keys[i + 1..];
    }

    /** Puts all entries of a map, which may be this one, in its order. */
    method PutAll(other: Map)
      requires Valid() && other.Valid()
      modifies this
      ensures Valid() && Cell() == PutEntries(old(Cell()), old(other.Cell()), old(other.keys))
    {
      ghost var from := other.Cell();
      var ks, i := other.keys, 0;
      assert ks[0..] == ks;
      while i < |ks|
        invariant 0 <= i <= |ks| && Valid() && other.Valid()
        invariant other.Cell() == from
        invariant PutEntries(old(Cell()), from, ks) == PutEntries(Cell(), from, ks[i..])
      {
        assert ks[i..][1..] == ks[i + 1..];
        assert ks[i] in other.keys;
        var prev := Put(ks[i], other.vals[ks[i]]);
        i := i + 1;
      }
    }
  }

  method PlaceOf(keys: seq<string>, key: string) returns (i: nat)
    requires key in keys
    ensures i == KeyIndex(keys, key)
  {
    i := 0;
    assert keys[0..] == keys;
    while keys[i] != key
      invariant i < |keys| && key in keys[i..] && KeyIndex(keys, key) == i + KeyIndex(keys[i..], key)
      decreases |keys| - i
    {
      assert keys[i..][1..] == keys[i + 1..];
      i := i + 1;
    }
  }

  lemma RemovedKeys(keys: seq<string>, i: nat)
    requires i < |keys| && forall j, k :: 0 <= j < k < |keys| ==> keys[j] != keys[k]
    ensures forall k :: k in keys[..i] + keys[i + 1..] <==> k in keys && k != keys[i]
  {
    var rest := keys[..i] + keys[i + 1..];
    forall k | k in keys && k != keys[i] ensures k in rest {
      var j :| 0 <= j < |keys| && keys[j] == k;
      assert rest[if j < i then j else j - 1] == k;
    }
  }

  /** An ordered list. */
  class List {
    var items: seq<Value>

    constructor (items: seq<Value>)
      ensures this.items == items
    {
      this.items := items;
    }

    method Add(v: Value)
      modifies this
      ensures items == old(items) + [v]
    {
      items := items + [v];
    }

    /** Appends the items of a list, which may be this one. */
    method AddAll(other: List)
      modifies this
      ensures items == old(items) + old(other.items)
    {
      items := items + other.items;
    }

    method Set(i: int, v: Value) returns (prev: Value)
      modifies this
      ensures 0 <= i < |old(items)| ==> prev == old(items)[i] && items == old(items)[i := v]
      ensures !(0 <= i < |old(items)|) ==> prev == Nil && items == old(items)
    {
      if !(0 <= i < |items|) { return Nil; }
      prev := items[i];
      items := items[i := v];
    }

    /** The first item equal to v, -1 when there is none. */
    method FirstIndex(env: Env, h: Heap, v: Value) returns (r: int)
      ensures r == IndexOf(env, h, items, v)
    {
      hide Equal;
      var i := 0;
      assert items[0..] == items;
      while i < |items|
        invariant 0 <= i <= |items|
        invariant IndexOf(env, h, items, v) ==
          (var rest := IndexOf(env, h, items[i..], v); if rest < 0 then -1 else rest + i)
      {
        if Equal(env, h, items[i], v) { return i; }
        assert items[i..][1..] == items[i + 1..];
        i := i + 1;
      }
      return -1;
    }

    /** For the list at an address of the store: what the evaluator's call returns and leaves there. */
    method Remove(env: Env, h: Heap, arg: Value, ghost a: nat) returns (r: Value)
      requires a < |h| && h[a] == ListCell(items)
      modifies this
      ensures Called(r, h[a := ListCell(items)]) == RemoveItem(env, h, a, [arg])
    {
      hide Equal, ToInt;
      assert h[a := ListCell(items)] == h;
      if arg.Int? {
        var n := ToInt(env, arg);
        if n.None? || n.value < 0 || n.value >= |items| { return Nil; }
        r := items[n.value];
        items := items[..n.value] + items[n.value + 1..];
        return;
      }
      var i := FirstIndex(env, h, arg);
      if i < 0 { return Bool(false); }
      items := items[..i] + items[i + 1..];
      r := Bool(true);
    }
  }
}
