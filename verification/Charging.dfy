/**
 What a method of a list or map adds to the store in bytes, the text of keys included, as sizeOf and #set
 count it (internal/vtl/limits.go:95-124, internal/vtl/eval.go:229-239), against what the call is charged
 (internal/vtl/methods.go:117-171).
 */
module Charging {
  import opened Common
  import opened Eval
  import opened Format
  import opened Limits
  import opened Methods
  import opened Runtime
  import opened Sizes
  import opened Values

  /** The bytes of a list or map, without what it holds. */
  function CellBytes(c: Cell): nat {
    match c
    case ListCell(items) => |items| * 64
    case MapCell(keys, _) => |keys| * 64 + KeyBytes(keys)
  }

  /** What sizeOf counts for a list or map itself. */
  lemma CellBytesAreOwn(h: Heap, v: Value)
    requires IsRef(v) && ValueOk(h, v)
    ensures CellBytes(h[v.addr]) == Own(h, v)
  {
  }

  /** The bytes of all lists and maps of a store. */
  function StoreBytes(h: Heap): nat { if h == [] then 0 else StoreBytes(h[..|h| - 1]) + CellBytes(h[|h| - 1]) }

  lemma OneMore(h: Heap, c: Cell)
    ensures StoreBytes(h + [c]) == StoreBytes(h) + CellBytes(c)
  {
    assert (h + [c])[..|h|] == h;
  }

  lemma {:induction false} OneChanged(h: Heap, a: nat, c: Cell)
    requires a < |h|
    ensures StoreBytes(h[a := c]) == StoreBytes(h) - CellBytes(h[a]) + CellBytes(c)
  {
    var n := |h| - 1;
    hide CellBytes;
    if a == n {
      assert h[a := c][..n] == h[..n];
    } else {
      assert h[a := c][..n] == h[..n][a := c];
      OneChanged(h[..n], a, c);
    }
  }

  // ---- Lists

  /** Replacing the items of a list changes only its own share of the bytes. */
  lemma ItemsBytes(h: Heap, a: nat, name: string, value: Value, items: seq<Value>)
    requires ValueOk(h, ListRef(a)) && !Creates(name)
    ensures var c := Called(value, SetItems(h, a, items));
      StoreBytes(c.heap) - StoreBytes(h) == Growth(h, ListRef(a), name, c) * 64
  {
    OneChanged(h, a, ListCell(items));
  }

  lemma RemoveBytes(env: Env, h: Heap, a: nat, args: seq<Value>)
    requires ValueOk(h, ListRef(a))
    ensures var c := RemoveItem(env, h, a, args);
      StoreBytes(c.heap) - StoreBytes(h) == Growth(h, ListRef(a), "remove", c) * 64
  {
    hide StoreBytes, ToInt, Equal, IndexOf, SetItems;
    var items := ListAt(h, a);
    if |args| == 1 {
      if args[0].Int? {
        var i := ToInt(env, args[0]);
        if i.Some? && 0 <= i.value < |items| { ItemsBytes(h, a, "remove", items[i.value], Removed(items, i.value)); }
      } else {
        var i := IndexOf(env, h, items, args[0]);
        if i >= 0 { ItemsBytes(h, a, "remove", Bool(true), Removed(items, i)); }
      }
    }
  }

  /** A list grows in bytes by its new slots alone. */
  lemma ListCallBytes(env: Env, h: Heap, a: nat, name: string, args: seq<Value>)
    requires IsListMethod(name) && ValueOk(h, ListRef(a))
    ensures var c := CallList(env, h, a, name, args);
      StoreBytes(c.heap) - StoreBytes(h) == Growth(h, ListRef(a), name, c) * 64
  {
    hide StoreBytes, ToInt, Equal, IndexOf, SetItems, RemoveItem;
    var items := ListAt(h, a);
    match name
    case "add" => if |args| == 1 { ItemsBytes(h, a, name, Bool(true), items + [args[0]]); }
    case "addAll" =>
      if FirstArg(args).ListRef? { ItemsBytes(h, a, name, Bool(true), items + ListAt(h, FirstArg(args).addr)); }
    case "remove" => RemoveBytes(env, h, a, args);
    case "set" =>
      var i := IntArg(env, args, 0);
      if i.Some? && |args| == 2 && 0 <= i.value < |items| {
        ItemsBytes(h, a, name, items[i.value], items[i.value := args[1]]);
      }
    case _ =>
  }

  // ---- Maps

  /** The text of the keys that storing entries adds. */
  function KeyText(c: Cell, from: Cell, keys: seq<string>): int
    requires c.MapCell? && from.MapCell?
  {
    KeyBytes(PutEntries(c, from, keys).keys) - KeyBytes(c.keys)
  }

  lemma KeyBytesMore(keys: seq<string>, key: string)
    ensures KeyBytes(keys + [key]) == KeyBytes(keys) + |key|
  {
    assert (keys + [key])[..|keys|] == keys;
  }

  /** Some of the keys is not empty and not there yet. */
  predicate NewKeyText(c: Cell, keys: seq<string>)
    requires c.MapCell?
  {
    exists k <- keys :: k != "" && k !in c.vals
  }

  lemma {:induction false} EntriesAddText(c: Cell, from: Cell, keys: seq<string>)
    requires c.MapCell? && from.MapCell?
    ensures KeyText(c, from, keys) >= 0 && (KeyText(c, from, keys) > 0 <==> NewKeyText(c, keys))
    decreases |keys|
  {
    if keys != [] {
      var k := keys[0];
      var d := PutCell(c, k, if k in from.vals then from.vals[k] else Nil);
      EntriesAddText(d, from, keys[1..]);
      KeyBytesMore(c.keys, k);
      assert KeyText(c, from, keys) == KeyBytes(d.keys) - KeyBytes(c.keys) + KeyText(d, from, keys[1..]);
      assert forall x :: x in keys <==> x == k || x in keys[1..];
      hide PutEntries, KeyBytes, KeyText;
    }
  }

  lemma {:induction false} RemovedBytes(keys: seq<string>, i: nat)
    requires i < |keys|
    ensures KeyBytes(Removed(keys, i)) == KeyBytes(keys) - |keys[i]|
  {
    var n := |keys| - 1;
    if i == n {
      assert Removed(keys, i) == keys[..n];
    } else {
      assert Removed(keys, i) == Removed(keys[..n], i) + [keys[n]];
      KeyBytesMore(Removed(keys[..n], i), keys[n]);
      RemovedBytes(keys[..n], i);
    }
  }

  lemma CellReplaced(h: Heap, a: nat, name: string, value: Value, c: Cell)
    requires ValueOk(h, MapRef(a)) && c.MapCell? && !Creates(name)
    ensures var d := Called(value, SetCell(h, a, c));
      && Growth(h, MapRef(a), name, d) == |c.keys| - |h[a].keys|
      && StoreBytes(d.heap) - StoreBytes(h) ==
         Growth(h, MapRef(a), name, d) * 64 + KeyBytes(c.keys) - KeyBytes(h[a].keys)
  {
    OneChanged(h, a, c);
  }

  lemma {:induction false} EntryBytes(h: Heap, c: Cell, keys: seq<string>)
    requires c.MapCell?
    ensures StoreBytes(h + EntryCells(c, keys)) == StoreBytes(h) + |keys| * 136
  {
    var cells := EntryCells(c, keys);
    if keys == [] {
      assert h + cells == h;
    } else {
      var n := |keys| - 1;
      assert cells[..n] == EntryCells(c, keys[..n]);
      assert h + cells == h + cells[..n] + [cells[n]];
      OneMore(h + cells[..n], cells[n]);
      assert KeyBytes(["key", "value"]) == 8 by {
        KeyBytesMore(["key"], "value");
        KeyBytesMore([], "key");
        assert [] + ["key"] == ["key"];
      }
      EntryBytes(h, c, keys[..n]);
    }
  }

  /** What a call on a map adds beyond the slots it grows: text of new keys, and the maps entrySet builds. */
  function Beyond(env: Env, h: Heap, a: nat, name: string, args: seq<Value>): int {
    var c := MapAt(h, a);
    if name == "put" && |args| == 2 then
      var k := Stringify(env, h, args[0]);
      if k in c.vals then 0 else |k|
    else if name == "putAll" && FirstArg(args).MapRef? then
      var from := MapAt(h, FirstArg(args).addr);
      KeyText(c, from, from.keys)
    else if name == "remove" then
      KeyBytes(RemoveKey(c, Stringify(env, h, FirstArg(args))).keys) - KeyBytes(c.keys)
    else if name == "entrySet" then |c.keys| * 136
    else 0
  }

  lemma EntrySetBytes(env: Env, h: Heap, a: nat, args: seq<Value>)
    requires ValueOk(h, MapRef(a))
    ensures var c := CallMap(env, h, a, "entrySet", args); var n := |MapAt(h, a).keys|;
      StoreBytes(c.heap) - StoreBytes(h) == n * 64 + n * 136 && Growth(h, MapRef(a), "entrySet", c) == n
  {
    hide StoreBytes, EntryCells;
    var c := MapAt(h, a);
    EntryBytes(h, c, c.keys);
    var cells := EntryCells(c, c.keys);
    OneMore(h + cells, CallMap(env, h, a, "entrySet", args).heap[|h| + |cells|]);
  }

  lemma MapCallBytes(env: Env, h: Heap, a: nat, name: string, args: seq<Value>)
    requires IsMapMethod(name) && ValueOk(h, MapRef(a))
    ensures var c := CallMap(env, h, a, name, args);
      StoreBytes(c.heap) - StoreBytes(h) == Growth(h, MapRef(a), name, c) * 64 + Beyond(env, h, a, name, args)
  {
    hide StoreBytes, FormatText, PutEntries, EntryCells, KeyBytes, RemoveKey;
    var c := MapAt(h, a);
    match name
    case "put" =>
      if |args| == 2 {
        var k := Stringify(env, h, args[0]);
        KeyBytesMore(c.keys, k);
        CellReplaced(h, a, name, Get(h, a, k), PutCell(c, k, args[1]));
      }
    case "putAll" =>
      if FirstArg(args).MapRef? {
        var from := MapAt(h, FirstArg(args).addr);
        CellReplaced(h, a, name, Nil, PutEntries(c, from, from.keys));
      }
    case "remove" =>
      var k := Stringify(env, h, FirstArg(args));
      RemoveKeyShrinks(h, c, k);
      CellReplaced(h, a, name, Get(h, a, k), RemoveKey(c, k));
    case "keySet" | "values" => OneMore(h, CallMap(env, h, a, name, args).heap[|h|]);
    case "entrySet" => EntrySetBytes(env, h, a, args);
    case _ =>
  }

  lemma {:induction false} EntriesStay(c: Cell, from: Cell, keys: seq<string>)
    requires c.MapCell? && from.MapCell?
    ensures |PutEntries(c, from, keys).keys| >= |c.keys|
    decreases |keys|
  {
    if keys != [] {
      var k := keys[0];
      EntriesStay(PutCell(c, k, if k in from.vals then from.vals[k] else Nil), from, keys[1..]);
    }
  }

  /** Only remove makes a map smaller, and then by the text of the key as well. */
  lemma MapCallGrows(env: Env, h: Heap, a: nat, name: string, args: seq<Value>)
    requires IsMapMethod(name) && ValueOk(h, MapRef(a)) && HeapOk(h)
    ensures var grown := Growth(h, MapRef(a), name, CallMap(env, h, a, name, args));
      && (name != "remove" ==> grown >= 0)
      && (name == "remove" ==> grown <= 0 && Beyond(env, h, a, name, args) <= 0)
  {
    hide FormatText, PutEntries, EntryCells, KeyBytes, HeapOk;
    var c := MapAt(h, a);
    if name == "putAll" && FirstArg(args).MapRef? {
      var from := MapAt(h, FirstArg(args).addr);
      EntriesStay(c, from, from.keys);
    } else if name == "remove" {
      var k := Stringify(env, h, FirstArg(args));
      if k in c.keys { RemovedBytes(c.keys, KeyIndex(c.keys, k)); }
    }
  }

  /** The call is to store under a key that is not empty and not there yet. */
  predicate AddsKeyText(env: Env, h: Heap, v: Value, name: string, args: seq<Value>) {
    v.MapRef? && (
      || (name == "put" && |args| == 2 && NewKeyText(MapAt(h, v.addr), [Stringify(env, h, args[0])]))
      || (name == "putAll" && FirstArg(args).MapRef? &&
          NewKeyText(MapAt(h, v.addr), MapAt(h, FirstArg(args).addr).keys)))
  }

  lemma BeyondExactly(env: Env, h: Heap, a: nat, name: string, args: seq<Value>)
    requires IsMapMethod(name) && name != "remove"
    ensures Beyond(env, h, a, name, args) >= 0
    ensures Beyond(env, h, a, name, args) > 0 <==>
            AddsKeyText(env, h, MapRef(a), name, args) || BuildsEntries(h, MapRef(a), name)
  {
    hide FormatText, KeyText;
    var c := MapAt(h, a);
    if name == "put" && |args| == 2 {
      var k := Stringify(env, h, args[0]);
      assert k in [k];
    } else if name == "putAll" && FirstArg(args).MapRef? {
      var from := MapAt(h, FirstArg(args).addr);
      EntriesAddText(c, from, from.keys);
    }
  }

  /** A call that is not refused beforehand, for a method there is. */
  predicate Runs(env: Env, s: Store, v: Value, name: string, args: seq<Value>) {
    Known(v, name) && CheckStore(env, s, ExpectedGrowth(s.heap, v, name, args) * SLOT_BYTES).1
  }

  /**
   A call is charged for all the bytes it adds to the store exactly unless it runs and stores under new
   keys that are not all empty, or is entrySet on a map with entries.
   */
  lemma CallsAreChargedExactly(env: Env, s: Store, v: Value, name: string, args: seq<Value>)
    requires ValueOk(s.heap, v) && HeapOk(s.heap)
    ensures var (s1, r) := CallCollection(env, s, v, name, args);
      StoreBytes(s1.heap) - StoreBytes(s.heap) <= s1.used - s.used <==>
      !(Runs(env, s, v, name, args) && (AddsKeyText(env, s.heap, v, name, args) || BuildsEntries(s.heap, v, name)))
  {
    if Known(v, name) {
      if v.ListRef? {
        ListCallBytes(env, s.heap, v.addr, name, args);
      } else {
        MapCallBytes(env, s.heap, v.addr, name, args);
        MapCallGrows(env, s.heap, v.addr, name, args);
        if name != "remove" { BeyondExactly(env, s.heap, v.addr, name, args); }
      }
    }
    hide StoreBytes, CallList, CallMap, Growth, Beyond, ExpectedGrowth, HeapOk, NewKeyText, FormatText;
  }

  /** A put under a new key is charged a slot and adds the text of the key as well. */
  lemma PutAddsKeyText(env: Env, s: Store, a: nat, key: string, v: Value)
    requires ValueOk(s.heap, MapRef(a)) && HeapOk(s.heap) && |key| <= MAX_OUTPUT_BYTES && key !in MapAt(s.heap, a).vals
    requires Runs(env, s, MapRef(a), "put", [Str(key), v])
    ensures var s1 := CallCollection(env, s, MapRef(a), "put", [Str(key), v]).0;
      && s1.used == s.used + 64
      && StoreBytes(s1.heap) == StoreBytes(s.heap) + 64 + |key|
  {
    assert Stringify(env, s.heap, Str(key)) == key;
    MapCallBytes(env, s.heap, a, "put", [Str(key), v]);
    hide StoreBytes, HeapOk, FormatText;
  }

  /** One put into an empty map, by a render that is alone: 65 bytes are added and 64 charged. */
  lemma OnePutUndercharged(env: Env)
    requires env.others(0) == 0
    ensures var s := Store([MapCell([], map[])], 0, 0);
      var s1 := CallCollection(env, s, MapRef(0), "put", [Str("k"), Nil]).0;
      StoreBytes(s1.heap) - StoreBytes(s.heap) == 65 && s1.used - s.used == 64
  {
    var s := Store([MapCell([], map[])], 0, 0);
    assert CellOk(s.heap, s.heap[0]);
    PutAddsKeyText(env, s, 0, "k", Nil);
  }

  /** An entry stored by #set, in contrast, is charged for all it adds. */
  lemma SetIsChargedInFull(env: Env, st: State, addr: nat, key: string, v: Value)
    requires ValueOk(st.store.heap, MapRef(addr))
    ensures var o := PutEntry(env, st, addr, key, v);
      o.Ran? ==> StoreBytes(o.st.store.heap) - StoreBytes(st.store.heap) == o.st.store.used - st.store.used
  {
    var h := st.store.heap;
    var c, d := h[addr], PutCell(h[addr], key, v);
    KeyBytesMore(c.keys, key);
    assert CellBytes(d) - CellBytes(c) == if key in c.vals then 0 else SLOT_BYTES + |key|;
    assert d.MapCell?;
    var charged := Charge(env, st, SLOT_BYTES + |key|).st.store;
    assert charged.heap == h && charged.used == st.store.used + SLOT_BYTES + |key|;
    hide StoreBytes, KeyBytes, PutCell, CellBytes, Charge;
    OneChanged(h, addr, d);
  }
}
