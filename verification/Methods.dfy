/**
 The methods of lists and maps (internal/vtl/methods.go): they change their receiver in place,
 or build a new collection, and what they add is checked and charged against the budget.
 */
module Methods {
  import opened Common
  import opened Values
  import opened Format
  import opened Limits
  import opened Runtime

  /** A method's result and the store after it. */
  datatype Called = Called(value: Value, heap: Heap)

  function CollectionLen(h: Heap, v: Value): nat {
    match v
    case ListRef(a) => |ListAt(h, a)|
    case MapRef(a) => |KeysAt(h, a)|
    case _ => 0
  }

  function FirstArg(args: seq<Value>): Value { if args == [] then Nil else args[0] }

  /** Argument i as text; none when it is missing or nil. */
  function StrArg(env: Env, h: Heap, args: seq<Value>, i: nat): Option<string> {
    if i >= |args| || args[i].Nil? then None else Some(Stringify(env, h, args[i]))
  }

  function IntArg(env: Env, args: seq<Value>, i: nat): Option<int> {
    if i >= |args| then None else ToInt(env, args[i])
  }

  /** The first item equal to v. */
  function IndexOf(env: Env, h: Heap, items: seq<Value>, v: Value): (r: int)
    ensures -1 <= r < |items|
    ensures r >= 0 ==> Equal(env, h, items[r], v)
    ensures forall j :: 0 <= j < (if r >= 0 then r else |items|) ==> !Equal(env, h, items[j], v)
  {
    if items == [] then -1
    else if Equal(env, h, items[0], v) then 0
    else
      var r := IndexOf(env, h, items[1..], v);
      assert forall j :: 1 <= j < |items| ==> items[j] == items[1..][j - 1];
      if r < 0 then -1 else r + 1
  }

  function Removed<T>(s: seq<T>, i: nat): seq<T>
    requires i < |s|
  {
    s[..i] + s[i + 1..]
  }

  /** The store with the items of the list at a replaced. */
  function SetItems(h: Heap, a: nat, items: seq<Value>): Heap {
    if a < |h| && h[a].ListCell? then h[a := ListCell(items)] else h
  }

  function SetCell(h: Heap, a: nat, c: Cell): Heap {
    if a < |h| && h[a].MapCell? && c.MapCell? then h[a := c] else h
  }

  function MapAt(h: Heap, a: nat): (c: Cell)
    ensures c.MapCell?
  {
    if a < |h| && h[a].MapCell? then h[a] else MapCell([], map[])
  }

  predicate IsListMethod(name: string) {
    name in {"size", "isEmpty", "get", "add", "addAll", "contains", "indexOf", "remove", "set"}
  }

  predicate IsMapMethod(name: string) {
    name in {"get", "put", "putAll", "containsKey", "remove", "keySet", "values", "entrySet", "size", "isEmpty"}
  }

  predicate Creates(name: string) { name == "keySet" || name == "values" || name == "entrySet" }

  function CallList(env: Env, h: Heap, a: nat, name: string, args: seq<Value>): Called
    requires IsListMethod(name)
  {
    var items := ListAt(h, a);
    match name
    case "size" => Called(Int(|items|), h)
    case "isEmpty" => Called(Bool(items == []), h)
    case "get" =>
      (match IntArg(env, args, 0)
       case Some(i) => Called(if 0 <= i < |items| then items[i] else Nil, h)
       case None => Called(Nil, h))
    case "add" => if |args| != 1 then Called(Nil, h) else Called(Bool(true), SetItems(h, a, items + [args[0]]))
    case "addAll" =>
      if FirstArg(args).ListRef? then Called(Bool(true), SetItems(h, a, items + ListAt(h, FirstArg(args).addr)))
      else Called(Bool(false), h)
    case "contains" => Called(Bool(|args| == 1 && IndexOf(env, h, items, args[0]) >= 0), h)
    case "indexOf" => if |args| != 1 then Called(Nil, h) else Called(Int(IndexOf(env, h, items, args[0])), h)
    case "remove" => RemoveItem(env, h, a, args)
    case _ =>
      (match IntArg(env, args, 0)
       case Some(i) =>
         if |args| == 2 && 0 <= i < |items| then Called(items[i], SetItems(h, a, items[i := args[1]]))
         else Called(Nil, h)
       case None => Called(Nil, h))
  }

  /** An integer removes by index, anything else by value. */
  function RemoveItem(env: Env, h: Heap, a: nat, args: seq<Value>): Called {
    var items := ListAt(h, a);
    if |args| != 1 then Called(Nil, h)
    else if args[0].Int? then
      var i := ToInt(env, args[0]);
      if i.None? || i.value < 0 || i.value >= |items| then Called(Nil, h)
      else Called(items[i.value], SetItems(h, a, Removed(items, i.value)))
    else
      var i := IndexOf(env, h, items, args[0]);
      if i < 0 then Called(Bool(false), h) else Called(Bool(true), SetItems(h, a, Removed(items, i)))
  }

  /** The entries of a map under the given keys stored in c, in order. */
  function PutEntries(c: Cell, from: Cell, keys: seq<string>): (d: Cell)
    requires c.MapCell? && from.MapCell?
    ensures d.MapCell?
    decreases |keys|
  {
    if keys == [] then c
    else
      var k := keys[0];
      PutEntries(PutCell(c, k, if k in from.vals then from.vals[k] else Nil), from, keys[1..])
  }

  /** A map cell without a key. */
  function RemoveKey(c: Cell, key: string): Cell
    requires c.MapCell?
  {
    if key !in c.vals then c
    else MapCell(if key in c.keys then Removed(c.keys, KeyIndex(c.keys, key)) else c.keys, c.vals - {key})
  }

  function KeyIndex(keys: seq<string>, key: string): (i: nat)
    requires key in keys
    ensures i < |keys| && keys[i] == key
  {
    if keys[0] == key then 0 else 1 + KeyIndex(keys[1..], key)
  }

  /** One two-entry map per entry, as entrySet builds them. */
  function EntryCells(c: Cell, keys: seq<string>): (cells: seq<Cell>)
    requires c.MapCell?
    ensures |cells| == |keys|
  {
    seq(|keys|, i requires 0 <= i < |keys| =>
      MapCell(["key", "value"],
              map["key" := Str(keys[i]), "value" := if keys[i] in c.vals then c.vals[keys[i]] else Nil]))
  }

  function CallMap(env: Env, h: Heap, a: nat, name: string, args: seq<Value>): Called
    requires IsMapMethod(name)
  {
    var c := MapAt(h, a);
    match name
    case "get" =>
      (match StrArg(env, h, args, 0) case Some(k) => Called(Get(h, a, k), h) case None => Called(Nil, h))
    case "put" =>
      if |args| != 2 then Called(Nil, h)
      else
        var k := Stringify(env, h, args[0]);
        Called(Get(h, a, k), SetCell(h, a, PutCell(c, k, args[1])))
    case "putAll" =>
      if FirstArg(args).MapRef? then
        var from := MapAt(h, FirstArg(args).addr);
        Called(Nil, SetCell(h, a, PutEntries(c, from, from.keys)))
      else Called(Nil, h)
    case "containsKey" =>
      (match StrArg(env, h, args, 0) case Some(k) => Called(Bool(k in c.vals), h) case None => Called(Bool(false), h))
    case "remove" =>
      var k := Stringify(env, h, FirstArg(args));
      Called(Get(h, a, k), SetCell(h, a, RemoveKey(c, k)))
    case "keySet" =>
      Called(ListRef(|h|), h + [ListCell(seq(|c.keys|, i requires 0 <= i < |c.keys| => Str(c.keys[i])))])
    case "values" => Called(ListRef(|h|), h + [ListCell(Children(h, MapRef(a)))])
    case "entrySet" =>
      var entries := EntryCells(c, c.keys);
      Called(ListRef(|h| + |entries|),
             h + entries + [ListCell(seq(|entries|, i requires 0 <= i < |entries| => MapRef(|h| + i)))])
    case "size" => Called(Int(|c.keys|), h)
    case _ => Called(Bool(c.keys == []), h)
  }

  /** The entries a method is about to add or build, as checked before it runs. */
  function ExpectedGrowth(h: Heap, v: Value, name: string, args: seq<Value>): nat {
    if name == "addAll" || name == "putAll" then CollectionLen(h, FirstArg(args))
    else if Creates(name) then CollectionLen(h, v)
    else 1
  }

  /** What a call grows: its receiver, and the collection it creates. */
  function Growth(h: Heap, v: Value, name: string, c: Called): int {
    CollectionLen(c.heap, v) - CollectionLen(h, v) + if Creates(name) then CollectionLen(c.heap, c.value) else 0
  }

  predicate Known(v: Value, name: string) {
    (v.ListRef? && IsListMethod(name)) || (v.MapRef? && IsMapMethod(name))
  }

  function Call(env: Env, h: Heap, v: Value, name: string, args: seq<Value>): Called
    requires Known(v, name)
  {
    if v.ListRef? then CallList(env, h, v.addr, name, args) else CallMap(env, h, v.addr, name, args)
  }

  /** A list or map method with its check beforehand and its charge afterwards. */
  function CallCollection(env: Env, s: Store, v: Value, name: string, args: seq<Value>): (Store, Result<Value, Signal>)
  {
    var (s1, fits) := CheckStore(env, s, ExpectedGrowth(s.heap, v, name, args) * SLOT_BYTES);
    if !fits then (s1, Err(MemoryLimit))
    else if !Known(v, name) then (s1, Ok(Nil))
    else
      var c := Call(env, s1.heap, v, name, args);
      var grown := Growth(s1.heap, v, name, c);
      var s2 := s1.(heap := c.heap);
      if grown <= 0 then (s2, Ok(c.value))
      else
        var (s3, ok) := ChargeStore(env, s2, grown * SLOT_BYTES);
        (s3, if ok then Ok(c.value) else Err(MemoryLimit))
  }

  // ---- What a call adds to the store

  function CellLen(c: Cell): nat {
    match c
    case ListCell(items) => |items|
    case MapCell(keys, _) => |keys|
  }

  /** The entries of all lists and maps of a store. */
  function Slots(h: Heap): nat { if h == [] then 0 else CellLen(h[0]) + Slots(h[1..]) }

  lemma {:induction false} SlotsConcat(h: Heap, k: Heap)
    ensures Slots(h + k) == Slots(h) + Slots(k)
  {
    if h == [] {
      assert h + k == k;
    } else {
      assert (h + k)[1..] == h[1..] + k;
      SlotsConcat(h[1..], k);
    }
  }

  lemma {:induction false} SlotsUpdate(h: Heap, a: nat, c: Cell)
    requires a < |h|
    ensures Slots(h[a := c]) == Slots(h) - CellLen(h[a]) + CellLen(c)
  {
    if a == 0 {
      assert h[0 := c][1..] == h[1..];
    } else {
      assert h[a := c][1..] == h[1..][a - 1 := c];
      SlotsUpdate(h[1..], a - 1, c);
    }
  }

  lemma SlotsOne(c: Cell)
    ensures Slots([c]) == CellLen(c)
  {
    assert [c][1..] == [];
  }

  lemma {:induction false} EntrySlots(c: Cell, keys: seq<string>)
    requires c.MapCell?
    ensures Slots(EntryCells(c, keys)) == 2 * |keys|
  {
    if keys != [] {
      EntrySlots(c, keys[1..]);
      assert EntryCells(c, keys)[1..] == EntryCells(c, keys[1..]);
    }
  }

  /** Storing entries adds at most one key each. */
  lemma {:induction false} PutEntriesLen(c: Cell, from: Cell, keys: seq<string>)
    requires c.MapCell? && from.MapCell?
    ensures |PutEntries(c, from, keys).keys| <= |c.keys| + |keys|
    decreases |keys|
  {
    if keys != [] {
      var k := keys[0];
      PutEntriesLen(PutCell(c, k, if k in from.vals then from.vals[k] else Nil), from, keys[1..]);
    }
  }

  lemma SetItemsSlots(h: Heap, a: nat, items: seq<Value>)
    ensures Slots(SetItems(h, a, items)) ==
            if a < |h| && h[a].ListCell? then Slots(h) - |ListAt(h, a)| + |items| else Slots(h)
  {
    if a < |h| && h[a].ListCell? { SlotsUpdate(h, a, ListCell(items)); }
  }

  lemma SetCellSlots(h: Heap, a: nat, c: Cell)
    requires c.MapCell?
    ensures Slots(SetCell(h, a, c)) ==
            if a < |h| && h[a].MapCell? then Slots(h) - |KeysAt(h, a)| + |c.keys| else Slots(h)
  {
    if a < |h| && h[a].MapCell? { SlotsUpdate(h, a, c); }
  }

  /** Replacing the items of a list changes only its own share of the slots. */
  lemma ItemsChanged(h: Heap, a: nat, name: string, value: Value, items: seq<Value>)
    requires ValueOk(h, ListRef(a)) && !Creates(name)
    ensures var c := Called(value, SetItems(h, a, items));
            && Slots(c.heap) - Slots(h) == Growth(h, ListRef(a), name, c) == |items| - |ListAt(h, a)|
  {
    SetItemsSlots(h, a, items);
  }

  lemma RemoveSlots(env: Env, h: Heap, a: nat, args: seq<Value>)
    requires ValueOk(h, ListRef(a))
    ensures var c := RemoveItem(env, h, a, args);
            && Slots(c.heap) - Slots(h) == Growth(h, ListRef(a), "remove", c) <= 0
  {
    hide Slots, FormatText, ToInt, Equal, SetItems, IndexOf;
    var items := ListAt(h, a);
    if |args| == 1 {
      if args[0].Int? {
        var i := ToInt(env, args[0]);
        if i.Some? && 0 <= i.value < |items| { ItemsChanged(h, a, "remove", items[i.value], Removed(items, i.value)); }
      } else {
        var i := IndexOf(env, h, items, args[0]);
        if i >= 0 { ItemsChanged(h, a, "remove", Bool(true), Removed(items, i)); }
      }
    }
  }

  /** A list method grows the store by what its receiver grows, at most what was checked. */
  lemma ListCallSlots(env: Env, h: Heap, a: nat, name: string, args: seq<Value>)
    requires IsListMethod(name) && ValueOk(h, ListRef(a))
    ensures var c := CallList(env, h, a, name, args);
            && Slots(c.heap) - Slots(h) == Growth(h, ListRef(a), name, c)
            && Growth(h, ListRef(a), name, c) <= ExpectedGrowth(h, ListRef(a), name, args)
  {
    hide Slots, FormatText, ToInt, Equal, IndexOf, SetItems, RemoveItem;
    var items := ListAt(h, a);
    match name
    case "add" => if |args| == 1 { ItemsChanged(h, a, name, Bool(true), items + [args[0]]); }
    case "addAll" =>
      if FirstArg(args).ListRef? { ItemsChanged(h, a, name, Bool(true), items + ListAt(h, FirstArg(args).addr)); }
    case "remove" => RemoveSlots(env, h, a, args);
    case "set" =>
      var i := IntArg(env, args, 0);
      if i.Some? && |args| == 2 && 0 <= i.value < |items| {
        ItemsChanged(h, a, name, items[i.value], items[i.value := args[1]]);
      }
    case _ =>
  }

  /** entrySet adds three slots an entry to the store and is charged for one. */
  lemma EntrySetSlots(env: Env, h: Heap, a: nat, args: seq<Value>)
    requires ValueOk(h, MapRef(a))
    ensures Slots(CallMap(env, h, a, "entrySet", args).heap) - Slots(h) == 3 * |KeysAt(h, a)|
    ensures Growth(h, MapRef(a), "entrySet", CallMap(env, h, a, "entrySet", args)) == |KeysAt(h, a)|
  {
    hide Slots, EntryCells;
    var c := MapAt(h, a);
    var cells := EntryCells(c, c.keys);
    EntrySlots(c, c.keys);
    SlotsConcat(h, cells);
    NewList(h + cells, CallMap(env, h, a, "entrySet", args).heap[|h| + |cells|]);
  }

  lemma MapCallSlots(env: Env, h: Heap, a: nat, name: string, args: seq<Value>)
    requires IsMapMethod(name) && ValueOk(h, MapRef(a)) && HeapOk(h)
    ensures var c := CallMap(env, h, a, name, args);
            && Slots(c.heap) - Slots(h) ==
               Growth(h, MapRef(a), name, c) + (if name == "entrySet" then 2 * |KeysAt(h, a)| else 0)
            && Growth(h, MapRef(a), name, c) <= ExpectedGrowth(h, MapRef(a), name, args)
  {
    hide Slots, FormatText, HeapOk, PutEntries, EntryCells;
    var c := MapAt(h, a);
    match name
    case "put" => if |args| == 2 { SetCellSlots(h, a, PutCell(c, Stringify(env, h, args[0]), args[1])); }
    case "putAll" =>
      if FirstArg(args).MapRef? {
        var from := MapAt(h, FirstArg(args).addr);
        PutEntriesLen(c, from, from.keys);
        SetCellSlots(h, a, PutEntries(c, from, from.keys));
      }
    case "remove" =>
      RemoveKeyShrinks(h, c, Stringify(env, h, FirstArg(args)));
      SetCellSlots(h, a, RemoveKey(c, Stringify(env, h, FirstArg(args))));
    case "keySet" | "values" => NewList(h, CallMap(env, h, a, name, args).heap[|h|]);
    case "entrySet" => EntrySetSlots(env, h, a, args);
    case _ =>
  }

  lemma RemoveKeyShrinks(h: Heap, c: Cell, key: string)
    requires c.MapCell?
    ensures RemoveKey(c, key).MapCell? && |RemoveKey(c, key).keys| <= |c.keys|
  {
  }

  lemma NewList(h: Heap, c: Cell)
    ensures Slots(h + [c]) == Slots(h) + CellLen(c)
  {
    SlotsConcat(h, [c]);
    SlotsOne(c);
  }

  // ---- The main results

  /** entrySet builds a two-entry map per entry beside the list it is charged for. */
  predicate BuildsEntries(h: Heap, v: Value, name: string) {
    v.MapRef? && name == "entrySet" && CollectionLen(h, v) > 0
  }

  /**
   A call grows the store by no more slots than were checked beforehand, exactly unless it is entrySet
   on a map with entries.
   */
  lemma GrowthExpectedExactly(env: Env, h: Heap, v: Value, name: string, args: seq<Value>)
    requires Known(v, name) && ValueOk(h, v) && HeapOk(h)
    ensures Slots(Call(env, h, v, name, args).heap) - Slots(h) <= ExpectedGrowth(h, v, name, args)
       <==> !BuildsEntries(h, v, name)
    ensures Growth(h, v, name, Call(env, h, v, name, args)) <= ExpectedGrowth(h, v, name, args)
  {
    hide Slots, HeapOk, CallList, CallMap;
    if v.ListRef? {
      ListCallSlots(env, h, v.addr, name, args);
    } else {
      MapCallSlots(env, h, v.addr, name, args);
      if name == "entrySet" { EntrySetSlots(env, h, v.addr, args); }
    }
  }

  /** A completed call is charged for all the slots it adds to the store, unless it is such an entrySet. */
  lemma CallsAreCharged(env: Env, s: Store, v: Value, name: string, args: seq<Value>)
    requires ValueOk(s.heap, v) && HeapOk(s.heap) && !BuildsEntries(s.heap, v, name)
    ensures var (s1, r) := CallCollection(env, s, v, name, args);
            && (Slots(s1.heap) - Slots(s.heap)) * SLOT_BYTES <= s1.used - s.used
            && (r.Ok? && s.used <= MAX_ALLOC_BYTES ==> s1.used <= MAX_ALLOC_BYTES)
  {
    hide Slots, HeapOk, Call, Growth, ExpectedGrowth;
    if Known(v, name) {
      CallSlots(env, s.heap, v, name, args);
    }
  }

  lemma CallSlots(env: Env, h: Heap, v: Value, name: string, args: seq<Value>)
    requires Known(v, name) && ValueOk(h, v) && HeapOk(h) && !BuildsEntries(h, v, name)
    ensures Slots(Call(env, h, v, name, args).heap) - Slots(h) == Growth(h, v, name, Call(env, h, v, name, args))
  {
    hide Slots, HeapOk, CallList, CallMap, Growth;
    if v.ListRef? {
      ListCallSlots(env, h, v.addr, name, args);
    } else {
      MapCallSlots(env, h, v.addr, name, args);
    }
  }
}
