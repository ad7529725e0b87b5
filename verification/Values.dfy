/**
 Template values and the store of lists and maps they refer to (internal/vtl/value.go). A list
 or map value is an address, so it may be shared, and may contain itself. A float is carried
 as its bits and a host object as its identity.
 */
module Values {
  import opened Common

  datatype Value =
    | Nil
    | Bool(b: bool)
    | Int(i: int)
    | Float(bits: nat)
    | Str(s: string)
    | Host(id: nat)
    | ListRef(addr: nat)
    | MapRef(addr: nat)

  /** A list's items, or a map's keys in insertion order with their values. */
  datatype Cell = ListCell(items: seq<Value>) | MapCell(keys: seq<string>, vals: map<string, Value>)

  type Heap = seq<Cell>

  predicate IsRef(v: Value) { v.ListRef? || v.MapRef? }

  function ListAt(h: Heap, addr: nat): seq<Value> {
    if addr < |h| && h[addr].ListCell? then h[addr].items else []
  }

  function KeysAt(h: Heap, addr: nat): seq<string> {
    if addr < |h| && h[addr].MapCell? then h[addr].keys else []
  }

  function Lookup(h: Heap, addr: nat, key: string): Option<Value> {
    if addr < |h| && h[addr].MapCell? && key in h[addr].vals then Some(h[addr].vals[key]) else None
  }

  /** What a collection holds, in order. */
  function Children(h: Heap, v: Value): seq<Value> {
    match v
    case ListRef(a) => ListAt(h, a)
    case MapRef(a) => var keys := KeysAt(h, a); seq(|keys|, i requires 0 <= i < |keys| => Get(h, a, keys[i]))
    case _ => []
  }

  /** The value under a key, nil when there is none. */
  function Get(h: Heap, addr: nat, key: string): Value {
    match Lookup(h, addr, key)
    case Some(v) => v
    case None => Nil
  }

  /** A cell whose keys are distinct and are exactly the keys of its map. */
  ghost predicate CellOk(h: Heap, c: Cell) {
    match c
    case ListCell(items) => forall v <- items :: ValueOk(h, v)
    case MapCell(keys, vals) =>
      && (forall i, j :: 0 <= i < j < |keys| ==> keys[i] != keys[j])
      && (forall k :: k in keys <==> k in vals)
      && forall k <- vals :: ValueOk(h, vals[k])
  }

  /** An address points to a cell of its kind. */
  predicate ValueOk(h: Heap, v: Value) {
    match v
    case ListRef(a) => a < |h| && h[a].ListCell?
    case MapRef(a) => a < |h| && h[a].MapCell?
    case _ => true
  }

  ghost predicate HeapOk(h: Heap) { forall c <- h :: CellOk(h, c) }

  /** Storing under a key: a new key goes last, an old one keeps its place (Map.Put). */
  function PutCell(c: Cell, key: string, v: Value): Cell
    requires c.MapCell?
  {
    MapCell(if key in c.vals then c.keys else c.keys + [key], c.vals[key := v])
  }

  lemma ChildrenOk(h: Heap, v: Value)
    requires HeapOk(h) && ValueOk(h, v)
    ensures forall c <- Children(h, v) :: ValueOk(h, c)
  {
    match v
    case ListRef(a) => assert CellOk(h, h[a]);
    case MapRef(a) =>
      assert CellOk(h, h[a]);
      forall i | 0 <= i < |KeysAt(h, a)|
        ensures ValueOk(h, Children(h, v)[i])
      {
        assert KeysAt(h, a)[i] in h[a].vals;
      }
    case _ =>
  }
}
