/**
 What the methods of lists and maps give and do (internal/vtl/methods.go:89-377), on the items and entries.
 */
module Calls {
  import opened Common
  import opened Values
  import opened Format
  import opened Limits
  import opened Runtime
  import opened Methods
  import opened Eval
  import opened Operations

  predicate IsList(h: Heap, a: nat) { a < |h| && h[a].ListCell? }

  predicate IsMap(h: Heap, a: nat) { a < |h| && h[a].MapCell? }

  // ---- From a template

  /**
   A call on a list or map that completes gives what its method gives and leaves what it leaves; a name that is
   no method of it gives null.
   */
  lemma CallGives(env: Env, v: Value, name: string, args: seq<Value>, st: State)
    requires IsRef(v) && ToCollection(v, name, args) && CallMethod(env, v, name, args, st).Ran?
    ensures var o := CallMethod(env, v, name, args, st); var h := st.store.heap;
      if Known(v, name)
      then o.value == Call(env, h, v, name, args).value && o.st.store.heap == Call(env, h, v, name, args).heap
      else o.value == Nil && o.st.store.heap == h
  {
    hide Call, ExpectedGrowth, Growth, FormatText, Equal;
  }

  // ---- Lists

  /** k is the place of the first item equal to x; none is -1. */
  ghost predicate FirstEqual(env: Env, h: Heap, items: seq<Value>, x: Value, k: int) {
    && -1 <= k < |items| && (k >= 0 ==> Equal(env, h, items[k], x))
    && forall j :: 0 <= j < |items| && (k < 0 || j < k) ==> !Equal(env, h, items[j], x)
  }

  lemma FirstEqualIsOne(env: Env, h: Heap, items: seq<Value>, x: Value, k: int, l: int)
    requires FirstEqual(env, h, items, x, k) && FirstEqual(env, h, items, x, l)
    ensures k == l
  {
    hide Equal;
  }

  /** The methods of a list that only read. */
  lemma ListReads(env: Env, h: Heap, a: nat, x: Value, i: int, k: int)
    requires IsList(h, a) && FirstEqual(env, h, h[a].items, x, k)
    ensures var items, v := h[a].items, ListRef(a);
      && Call(env, h, v, "size", []) == Called(Int(|items|), h)
      && Call(env, h, v, "isEmpty", []) == Called(Bool(|items| == 0), h)
      && Call(env, h, v, "get", [Int(i)]) ==
         Called(if 0 <= i < |items| && i < 0x8000_0000 then items[i] else Nil, h)
      && Call(env, h, v, "contains", [x]) == Called(Bool(k >= 0), h)
      && Call(env, h, v, "indexOf", [x]) == Called(Int(k), h)
  {
    FirstEqualIsOne(env, h, h[a].items, x, k, IndexOf(env, h, h[a].items, x));
    hide Equal, IndexOf;
  }

  /** A list with other items; every other cell stays. */
  ghost predicate NowHas(h: Heap, h1: Heap, a: nat, items: seq<Value>) {
    && |h1| == |h| && a < |h| && h1[a] == ListCell(items)
    && forall b :: 0 <= b < |h| && b != a ==> h1[b] == h[b]
  }

  /** add and addAll append; addAll takes nothing but a list. */
  lemma ListAdds(env: Env, h: Heap, a: nat, x: Value)
    requires IsList(h, a)
    ensures var items, v := h[a].items, ListRef(a);
      && Call(env, h, v, "add", [x]).value == Bool(true) && NowHas(h, Call(env, h, v, "add", [x]).heap, a, items + [x])
      && (x.ListRef? && IsList(h, x.addr) ==>
            var c := Call(env, h, v, "addAll", [x]);
            c.value == Bool(true) && NowHas(h, c.heap, a, items + h[x.addr].items))
      && (!x.ListRef? ==> Call(env, h, v, "addAll", [x]) == Called(Bool(false), h))
  {
  }

  lemma ItemsSet(h: Heap, a: nat, items: seq<Value>)
    requires IsList(h, a)
    ensures NowHas(h, SetItems(h, a, items), a, items)
  {
  }

  /** remove takes an integer as a place. */
  lemma ListRemovesAt(env: Env, h: Heap, a: nat, i: int)
    requires IsList(h, a)
    ensures var items := h[a].items; var c := Call(env, h, ListRef(a), "remove", [Int(i)]);
      if 0 <= i < |items| && i < 0x8000_0000
      then c.value == items[i] && NowHas(h, c.heap, a, items[..i] + items[i + 1..])
      else c == Called(Nil, h)
  {
    var items := h[a].items;
    if 0 <= i < |items| { ItemsSet(h, a, Removed(items, i)); }
    hide Equal, IndexOf, SetItems, NowHas;
  }

  /** And anything else as an item, of which the first one goes. */
  lemma ListRemovesItem(env: Env, h: Heap, a: nat, x: Value, k: int)
    requires IsList(h, a) && FirstEqual(env, h, h[a].items, x, k) && !x.Int?
    ensures var items := h[a].items; var c := Call(env, h, ListRef(a), "remove", [x]);
      if k >= 0 then c.value == Bool(true) && NowHas(h, c.heap, a, items[..k] + items[k + 1..])
      else c == Called(Bool(false), h)
  {
    hide Equal, IndexOf, SetItems, NowHas;
    var items := h[a].items;
    FirstEqualIsOne(env, h, items, x, k, IndexOf(env, h, items, x));
    hide FirstEqual;
    if k >= 0 { ItemsSet(h, a, Removed(items, k)); }
  }

  /** set replaces an item in range and gives the one before. */
  lemma ListSets(env: Env, h: Heap, a: nat, x: Value, i: int)
    requires IsList(h, a)
    ensures var items := h[a].items; var c := Call(env, h, ListRef(a), "set", [Int(i), x]);
      if 0 <= i < |items| && i < 0x8000_0000
      then c.value == items[i] && NowHas(h, c.heap, a, items[i := x])
      else c == Called(Nil, h)
  {
  }

  /** Other arguments: what is missing, and what is too much. */
  lemma ListArguments(env: Env, h: Heap, a: nat, args: seq<Value>)
    requires IsList(h, a)
    ensures var v, none := ListRef(a), Called(Nil, h);
      && (|args| != 1 ==>
            && Call(env, h, v, "add", args) == none && Call(env, h, v, "indexOf", args) == none
            && Call(env, h, v, "remove", args) == none && Call(env, h, v, "contains", args) == Called(Bool(false), h))
      && (|args| != 2 ==> Call(env, h, v, "set", args) == none)
      && (args == [] || (!args[0].Int? && !args[0].Float?) ==>
            Call(env, h, v, "get", args) == none && Call(env, h, v, "set", args) == none)
      && (args == [] ==> Call(env, h, v, "addAll", args) == Called(Bool(false), h))
      && (args != [] ==>
            && Call(env, h, v, "get", args) == Call(env, h, v, "get", args[..1])
            && Call(env, h, v, "addAll", args) == Call(env, h, v, "addAll", args[..1]))
      && Call(env, h, v, "size", args) == Call(env, h, v, "size", [])
      && Call(env, h, v, "isEmpty", args) == Call(env, h, v, "isEmpty", [])
  {
    hide Equal, IndexOf, SetItems;
  }

  // ---- Maps

  /** Other arguments: null is no key, except for remove, and the text of any other value is one. */
  lemma MapArguments(env: Env, h: Heap, a: nat, args: seq<Value>)
    requires IsMap(h, a)
    ensures var v, none := MapRef(a), Called(Nil, h);
      && (|args| != 2 ==> Call(env, h, v, "put", args) == none)
      && (args == [] || args[0] == Nil ==>
            Call(env, h, v, "get", args) == none && Call(env, h, v, "containsKey", args) == Called(Bool(false), h))
      && (args == [] || !args[0].MapRef? ==> Call(env, h, v, "putAll", args) == none)
      && (args != [] ==>
            var c, key := h[a], FormatText(env.lib, h, args[0], MAX_OUTPUT_BYTES).0;
            var was := if key in c.vals then c.vals[key] else Nil;
            && (args[0] != Nil ==>
                  && Call(env, h, v, "get", args) == Called(was, h)
                  && Call(env, h, v, "containsKey", args) == Called(Bool(key in c.vals), h))
            && Call(env, h, v, "remove", args).value == was
            && (|args| == 2 ==> Call(env, h, v, "put", args).value == was))
  {
    hide FormatText, PutEntries, RemoveKey;
  }

  /** The methods of a map that only read and build nothing. */
  lemma MapReads(env: Env, h: Heap, a: nat, key: string)
    requires IsMap(h, a) && |key| <= MAX_OUTPUT_BYTES
    ensures var c, v := h[a], MapRef(a);
      && Call(env, h, v, "size", []) == Called(Int(|c.keys|), h)
      && Call(env, h, v, "isEmpty", []) == Called(Bool(|c.keys| == 0), h)
      && Call(env, h, v, "get", [Str(key)]) == Called(if key in c.vals then c.vals[key] else Nil, h)
      && Call(env, h, v, "containsKey", [Str(key)]) == Called(Bool(key in c.vals), h)
      && Call(env, h, v, "get", []) == Called(Nil, h) && Call(env, h, v, "containsKey", []) == Called(Bool(false), h)
  {
    assert Stringify(env, h, Str(key)) == key;
    hide FormatText;
  }

  /** keySet and values are new lists, in the order of the keys. */
  lemma MapLists(env: Env, h: Heap, a: nat)
    requires IsMap(h, a)
    ensures var c := h[a]; var n := |c.keys|; var ks := Call(env, h, MapRef(a), "keySet", []);
      && ks.value == ListRef(|h|) && |ks.heap| == |h| + 1 && ks.heap[..|h|] == h && ks.heap[|h|].ListCell?
      && |ks.heap[|h|].items| == n && (forall i :: 0 <= i < n ==> ks.heap[|h|].items[i] == Str(c.keys[i]))
    ensures var c := h[a]; var n := |c.keys|; var vs := Call(env, h, MapRef(a), "values", []);
      && vs.value == ListRef(|h|) && |vs.heap| == |h| + 1 && vs.heap[..|h|] == h && vs.heap[|h|].ListCell?
      && |vs.heap[|h|].items| == n
      && (forall i :: 0 <= i < n ==> vs.heap[|h|].items[i] == if c.keys[i] in c.vals then c.vals[c.keys[i]] else Nil)
  {
  }

  /** A new map of a key and its value. */
  ghost predicate IsEntry(c: Cell, key: string, v: Value) {
    && c.MapCell? && c.keys == ["key", "value"] && c.vals.Keys == {"key", "value"}
    && c.vals["key"] == Str(key) && c.vals["value"] == v
  }

  /** entrySet is a new list of new maps, one for each entry, in the order of the keys. */
  lemma MapEntries(env: Env, h: Heap, a: nat)
    requires IsMap(h, a)
    ensures var c := h[a]; var n := |c.keys|; var es := Call(env, h, MapRef(a), "entrySet", []);
      && es.value == ListRef(|h| + n) && |es.heap| == |h| + n + 1 && es.heap[..|h|] == h && es.heap[|h| + n].ListCell?
      && |es.heap[|h| + n].items| == n
      && (forall i :: 0 <= i < n ==>
            && es.heap[|h| + n].items[i] == MapRef(|h| + i)
            && IsEntry(es.heap[|h| + i], c.keys[i], if c.keys[i] in c.vals then c.vals[c.keys[i]] else Nil))
  {
  }

  /** put enters a value and gives the one before; a new key is the last. */
  lemma MapPuts(env: Env, h: Heap, a: nat, key: string, x: Value)
    requires IsMap(h, a) && |key| <= MAX_OUTPUT_BYTES
    ensures var c := h[a]; var p := Call(env, h, MapRef(a), "put", [Str(key), x]);
      && p.value == (if key in c.vals then c.vals[key] else Nil)
      && p.heap == h[a := MapCell(if key in c.vals then c.keys else c.keys + [key], c.vals[key := x])]
  {
    assert Stringify(env, h, Str(key)) == key;
    hide FormatText;
  }

  /** remove takes a key away, and gives its value. */
  lemma MapRemoves(env: Env, h: Heap, a: nat, key: string)
    requires IsMap(h, a) && CellOk(h, h[a]) && |key| <= MAX_OUTPUT_BYTES
    ensures var c := h[a]; var p := Call(env, h, MapRef(a), "remove", [Str(key)]);
      if key !in c.vals then p == Called(Nil, h)
      else
        && p.value == c.vals[key]
        && exists k :: 0 <= k < |c.keys| && c.keys[k] == key &&
                       p.heap == h[a := MapCell(c.keys[..k] + c.keys[k + 1..], c.vals - {key})]
  {
    assert Stringify(env, h, Str(key)) == key;
    var c := h[a];
    assert key in c.keys <==> key in c.vals;
    if key in c.keys {
      var k := KeyIndex(c.keys, key);
      assert c.keys[k] == key;
    }
    hide FormatText, KeyIndex;
  }

  lemma {:induction false} PutFirst(c: Cell, from: Cell, keys: seq<string>)
    requires c.MapCell? && from.MapCell? && keys != [] && keys[0] in from.vals
    ensures PutEntries(c, from, keys) == PutEntries(PutCell(c, keys[0], from.vals[keys[0]]), from, keys[1..])
  {
    hide PutCell;
  }

  /** What is under x after entries have been put. */
  lemma {:induction false} EntryPut(c: Cell, from: Cell, keys: seq<string>, x: string)
    requires c.MapCell? && from.MapCell? && (forall k <- keys :: k in from.vals)
    ensures var d := PutEntries(c, from, keys);
      && (x in d.vals <==> x in c.vals || x in keys)
      && (x in d.vals ==> d.vals[x] == if x in keys then from.vals[x] else c.vals[x])
    decreases |keys|
  {
    if keys != [] {
      var k, rest := keys[0], keys[1..];
      PutFirst(c, from, keys);
      hide PutEntries;
      EntryPut(PutCell(c, k, from.vals[k]), from, rest, x);
      assert x in keys <==> x == k || x in rest by { assert keys == [k] + rest; }
    }
  }

  /** Those of some keys that are not among others. */
  function Without(keys: seq<string>, others: map<string, Value>): seq<string> {
    if keys == [] then []
    else (if keys[0] in others then [] else [keys[0]]) + Without(keys[1..], others)
  }

  predicate Distinct(keys: seq<string>) { forall i, j :: 0 <= i < j < |keys| ==> keys[i] != keys[j] }

  lemma DistinctRest(keys: seq<string>)
    requires Distinct(keys) && keys != []
    ensures Distinct(keys[1..]) && keys[0] !in keys[1..]
  {
    var rest := keys[1..];
    forall i | 0 <= i < |rest| ensures rest[i] == keys[i + 1] && rest[i] != keys[0] {}
  }

  lemma AllIn(keys: seq<string>, vals: map<string, Value>)
    requires keys != [] && forall k <- keys :: k in vals
    ensures keys[0] in vals && forall k <- keys[1..] :: k in vals
  {
    forall k | k in keys[1..] ensures k in keys {}
  }

  /** A key put is the last when it is new. */
  lemma OneKeyMore(keys: seq<string>, k: string, rest: seq<string>, isNew: bool)
    ensures (if isNew then keys + [k] else keys) + rest == keys + ((if isNew then [k] else []) + rest)
  {
  }

  lemma {:induction false} KeysPut(c: Cell, from: Cell, keys: seq<string>)
    requires c.MapCell? && from.MapCell? && (forall k <- keys :: k in from.vals) && Distinct(keys)
    ensures PutEntries(c, from, keys).keys == c.keys + Without(keys, c.vals)
    decreases |keys|
  {
    if keys == [] {
      assert c.keys + [] == c.keys;
    } else {
      hide PutEntries, Distinct;
      AllIn(keys, from.vals);
      DistinctRest(keys);
      var k, rest := keys[0], keys[1..];
      var d := PutCell(c, k, from.vals[k]);
      PutFirst(c, from, keys);
      KeysPut(d, from, rest);
      SameWithout(rest, c.vals, k, from.vals[k]);
      OneKeyMore(c.keys, k, Without(rest, c.vals), k !in c.vals);
    }
  }

  lemma {:induction false} SameWithout(keys: seq<string>, others: map<string, Value>, k: string, v: Value)
    requires k !in keys
    ensures Without(keys, others[k := v]) == Without(keys, others)
  {
    if keys != [] { SameWithout(keys[1..], others, k, v); }
  }

  /** putAll enters all entries of another map, new keys behind the old ones in the order of the other map. */
  lemma MapPutsAll(env: Env, h: Heap, a: nat, b: nat)
    requires IsMap(h, a) && IsMap(h, b) && CellOk(h, h[b])
    ensures var c, d := h[a], h[b]; var p := Call(env, h, MapRef(a), "putAll", [MapRef(b)]);
      && p.value == Nil && |p.heap| == |h| && (forall x :: 0 <= x < |h| && x != a ==> p.heap[x] == h[x])
      && p.heap[a].MapCell? && p.heap[a].keys == c.keys + Without(d.keys, c.vals)
      && (forall k :: k in p.heap[a].vals <==> k in c.vals || k in d.vals)
      && (forall k <- p.heap[a].vals :: p.heap[a].vals[k] == if k in d.vals then d.vals[k] else c.vals[k])
  {
    var c, d := h[a], h[b];
    forall x ensures var r := PutEntries(c, d, d.keys);
      && (x in r.vals <==> x in c.vals || x in d.keys)
      && (x in r.vals ==> r.vals[x] == if x in d.keys then d.vals[x] else c.vals[x])
    {
      EntryPut(c, d, d.keys, x);
    }
    KeysPut(c, d, d.keys);
    hide PutEntries, Without;
  }
}
