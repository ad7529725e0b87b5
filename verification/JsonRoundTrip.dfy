/**
 The JSON round trip: decoding the tokens the encoder writes gives back an equal value, key
 order included, in a store of its own. Values are compared as the trees they unfold to.
 */
module JsonRoundTrip {
  import opened Common
  import opened Limits
  import opened Values
  import opened Format
  import opened JsonCodec
  import opened Scan
  import opened Cycles

  /** What a value looks like without its addresses; a host object looks like null. */
  datatype Tree =
    | TNull
    | TBool(b: bool)
    | TInt(i: int)
    | TFloat(bits: nat)
    | TStr(s: string)
    | TList(items: seq<Tree>)
    | TMap(keys: seq<string>, vals: seq<Tree>)

  /** The tree of a value down to the greatest depth a value may nest. */
  function TreeOf(h: Heap, v: Value, depth: nat): Tree
    requires depth <= MAX_VALUE_DEPTH
    decreases MAX_VALUE_DEPTH - depth, 1
  {
    match v
    case Nil | Host(_) => TNull
    case Bool(b) => TBool(b)
    case Int(i) => TInt(i)
    case Float(bits) => TFloat(bits)
    case Str(s) => TStr(s)
    case ListRef(a) => TList(TreesOf(h, Children(h, v), depth))
    case MapRef(a) => TMap(KeysAt(h, a), TreesOf(h, Children(h, v), depth))
  }

  /** The trees of what a collection at a depth holds; none at the greatest depth. */
  function TreesOf(h: Heap, vs: seq<Value>, depth: nat): (ts: seq<Tree>)
    requires depth <= MAX_VALUE_DEPTH
    ensures depth < MAX_VALUE_DEPTH ==>
              |ts| == |vs| && forall i :: 0 <= i < |vs| ==> ts[i] == TreeOf(h, vs[i], depth + 1)
    decreases MAX_VALUE_DEPTH - depth, 0
  {
    if depth == MAX_VALUE_DEPTH then [] else seq(|vs|, i requires 0 <= i < |vs| => TreeOf(h, vs[i], depth + 1))
  }

  /** The values JSON keeps exactly: no floats, integers of 64 bits, distinct keys. */
  ghost predicate Exact(t: Tree) {
    match t
    case TInt(i) => IsInt64(i)
    case TFloat(_) => false
    case TList(items) => forall x <- items :: Exact(x)
    case TMap(keys, vals) =>
      && |keys| == |vals| && (forall x <- vals :: Exact(x))
      && forall i, j :: 0 <= i < j < |keys| ==> keys[i] != keys[j]
    case _ => true
  }

  /** How deep lists and maps nest in a tree. */
  function Height(t: Tree): nat
    decreases t, 0
  {
    match t
    case TList(items) => 1 + MaxHeight(items)
    case TMap(_, vals) => 1 + MaxHeight(vals)
    case _ => 0
  }

  function MaxHeight(ts: seq<Tree>): (n: nat)
    ensures forall x <- ts :: Height(x) <= n
    decreases ts, 0
  {
    if ts == [] then 0
    else
      var n := Max(Height(ts[0]), MaxHeight(ts[1..]));
      assert forall x <- ts :: x == ts[0] || x in ts[1..];
      n
  }

  // ---- The tokens of a tree

  function Parts(t: Tree): seq<Tree> {
    match t
    case TList(items) => items
    case TMap(_, vals) => vals
    case _ => []
  }

  predicate IsNode(t: Tree) { t.TList? || (t.TMap? && |t.keys| == |t.vals|) }

  function Encode(t: Tree): seq<Tok>
    decreases t, 1, 0
  {
    match t
    case TNull => [JNull]
    case TBool(b) => [JBool(b)]
    case TInt(i) => [JNum(FormatInt(i))]
    case TFloat(_) => [JNull]
    case TStr(s) => [JStr(s)]
    case TList(_) => [LBracket] + EncodeParts(t, 0) + [RBracket]
    case TMap(keys, vals) => if |keys| == |vals| then [LBrace] + EncodeParts(t, 0) + [RBrace] else []
  }

  function EncodeParts(t: Tree, i: nat): seq<Tok>
    requires IsNode(t) && i <= |Parts(t)|
    decreases t, 0, |Parts(t)| - i
  {
    if i == |Parts(t)| then [] else LeadToks(t, i) + (Encode(Parts(t)[i]) + EncodeParts(t, i + 1))
  }

  function LeadToks(t: Tree, i: nat): seq<Tok>
    requires IsNode(t) && i < |Parts(t)|
  {
    (if i > 0 then [Comma] else []) + (if t.TMap? then [JStr(t.keys[i]), Colon] else [])
  }

  function Flatten(writes: seq<seq<Tok>>): seq<Tok> {
    if writes == [] then [] else writes[0] + Flatten(writes[1..])
  }

  lemma {:induction false} FlattenConcat(a: seq<seq<Tok>>, b: seq<seq<Tok>>)
    ensures Flatten(a + b) == Flatten(a) + Flatten(b)
  {
    if a == [] {
      assert a + b == b;
    } else {
      assert (a + b)[1..] == a[1..] + b;
      FlattenConcat(a[1..], b);
      assert Flatten(a + b) == a[0] + (Flatten(a[1..]) + Flatten(b));
    }
  }

  lemma FlattenOne(w: seq<Tok>)
    ensures Flatten([w]) == w
  {
    assert [w][1..] == [];
    assert w + [] == w;
  }

  lemma ThenFlattens(s: Trace, t: Trace)
    ensures s.Then(t).stop.None? <==> s.stop.None? && t.stop.None?
    ensures s.stop.None? ==> Flatten(s.Then(t).writes) == Flatten(s.writes) + Flatten(t.writes)
  {
    FlattenConcat(s.writes, t.writes);
  }

  // ---- The encoder writes the tokens of the tree

  lemma LeadFlattens(h: Heap, v: Value, i: nat, depth: nat)
    requires IsRef(v) && i < |Children(h, v)| && depth < MAX_VALUE_DEPTH
    ensures IsNode(TreeOf(h, v, depth)) && |Parts(TreeOf(h, v, depth))| == |Children(h, v)|
    ensures Parts(TreeOf(h, v, depth))[i] == TreeOf(h, Children(h, v)[i], depth + 1)
    ensures Flatten(Lead(Json, h, v, i)) == LeadToks(TreeOf(h, v, depth), i)
  {
    hide TreesOf;
    var lead := Lead(Json, h, v, i);
    if lead != [] { FlattenOne(lead[0]); }
  }

  lemma {:induction false} ChildrenEncode(lib: Library, h: Heap, v: Value, i: nat, depth: nat, inside: set<Value>)
    requires IsRef(v) && depth < MAX_VALUE_DEPTH && i <= |Children(h, v)|
    requires Numbers(TreeOf(h, v, depth))
    requires VisitChildren(lib, Json, h, v, i, depth, inside).stop.None?
    ensures IsNode(TreeOf(h, v, depth)) && |Parts(TreeOf(h, v, depth))| == |Children(h, v)|
    ensures Flatten(VisitChildren(lib, Json, h, v, i, depth, inside).writes) == EncodeParts(TreeOf(h, v, depth), i)
    decreases MAX_VALUE_DEPTH - depth, 0, |Children(h, v)| - i
  {
    hide Visit, TreesOf, Encode, LeadToks, Lead, Children, Flatten;
    FlattenNothing();
    if i < |Children(h, v)| {
      var lead := Trace(Lead(Json, h, v, i), None);
      var child := Visit(lib, Json, h, Children(h, v)[i], depth + 1, inside);
      var rest := VisitChildren(lib, Json, h, v, i + 1, depth, inside);
      ThenFlattens(lead.Then(child), rest);
      ThenFlattens(lead, child);
      LeadFlattens(h, v, i, depth);
      VisitEncodes(lib, h, Children(h, v)[i], depth + 1, inside);
      ChildrenEncode(lib, h, v, i + 1, depth, inside);
    } else {
      NodeOf(h, v, depth);
    }
  }

  lemma FlattenNothing()
    ensures Flatten([]) == []
  {
  }

  lemma NodeOf(h: Heap, v: Value, depth: nat)
    requires IsRef(v) && depth < MAX_VALUE_DEPTH
    ensures IsNode(TreeOf(h, v, depth)) && |Parts(TreeOf(h, v, depth))| == |Children(h, v)|
  {
  }

  /** Integers have 64 bits; floats, which library code prints, are left out of the round trip. */
  ghost predicate Numbers(t: Tree) {
    match t
    case TInt(i) => IsInt64(i)
    case TFloat(_) => false
    case TList(items) => forall x <- items :: Numbers(x)
    case TMap(_, vals) => forall x <- vals :: Numbers(x)
    case _ => true
  }

  /** An encoded value is written as the tokens of its tree. */
  lemma {:induction false} VisitEncodes(lib: Library, h: Heap, v: Value, depth: nat, inside: set<Value>)
    requires depth <= MAX_VALUE_DEPTH && Numbers(TreeOf(h, v, depth))
    requires Visit(lib, Json, h, v, depth, inside).stop.None?
    ensures Flatten(Visit(lib, Json, h, v, depth, inside).writes) == Encode(TreeOf(h, v, depth))
    decreases MAX_VALUE_DEPTH - depth, 1, 0
  {
    hide VisitChildren, TreesOf, Flatten, EncodeParts, Children;
    if IsRef(v) {
      assert depth < MAX_VALUE_DEPTH && v !in inside;
      var open := Trace([Open(Json, v)], None);
      var body := VisitChildren(lib, Json, h, v, 0, depth, inside + {v});
      var close := Trace([Close(Json, v)], None);
      ThenFlattens(open.Then(body), close);
      ThenFlattens(open, body);
      FlattenOne(Open(Json, v));
      FlattenOne(Close(Json, v));
      ChildrenEncode(lib, h, v, 0, depth, inside + {v});
    } else {
      FlattenOne(Scalar(lib, Json, v));
    }
  }

  // ---- The decoder reads the tokens of a tree

  /** Values keep their trees when the store grows. */
  lemma {:induction false} TreeKept(h: Heap, h1: Heap, v: Value, depth: nat)
    requires HeapOk(h) && ValueOk(h, v) && h <= h1 && depth <= MAX_VALUE_DEPTH
    ensures TreeOf(h1, v, depth) == TreeOf(h, v, depth)
    decreases MAX_VALUE_DEPTH - depth
  {
    hide TreeOf, TreesOf, HeapOk;
    if IsRef(v) {
      assert h1[v.addr] == h[v.addr];
      var items := Children(h, v);
      assert Children(h1, v) == items;
      ChildrenOk(h, v);
      if depth < MAX_VALUE_DEPTH {
        forall i | 0 <= i < |items|
          ensures TreeOf(h1, items[i], depth + 1) == TreeOf(h, items[i], depth + 1)
        {
          assert items[i] in items;
          TreeKept(h, h1, items[i], depth + 1);
        }
        assert TreesOf(h1, items, depth) == TreesOf(h, items, depth);
      } else {
        NoTrees(h, items);
        NoTrees(h1, items);
      }
      if v.ListRef? {
        ListTree(h, v.addr, depth);
        ListTree(h1, v.addr, depth);
      } else {
        MapTree(h, v.addr, depth);
        MapTree(h1, v.addr, depth);
      }
    } else {
      ScalarTree(h, h1, v, depth);
    }
  }

  lemma NoTrees(h: Heap, vs: seq<Value>)
    ensures TreesOf(h, vs, MAX_VALUE_DEPTH) == []
  {
  }

  lemma ScalarTree(h: Heap, h1: Heap, v: Value, depth: nat)
    requires !IsRef(v) && depth <= MAX_VALUE_DEPTH
    ensures TreeOf(h1, v, depth) == TreeOf(h, v, depth)
  {
    hide TreesOf;
  }

  /** Unfolding one level of a collection. */
  lemma ListTree(h: Heap, a: nat, depth: nat)
    requires depth <= MAX_VALUE_DEPTH
    ensures TreeOf(h, ListRef(a), depth) == TList(TreesOf(h, Children(h, ListRef(a)), depth))
  {
    hide TreesOf, Children;
  }

  lemma MapTree(h: Heap, a: nat, depth: nat)
    requires depth <= MAX_VALUE_DEPTH
    ensures TreeOf(h, MapRef(a), depth) == TMap(KeysAt(h, a), TreesOf(h, Children(h, MapRef(a)), depth))
  {
    hide TreesOf, Children;
  }

  /** The store grew and is still well formed. */
  ghost predicate Grew(h: Heap, h1: Heap) { h <= h1 && HeapOk(h1) }

  lemma ValueKept(h: Heap, h1: Heap, v: Value)
    requires ValueOk(h, v) && h <= h1
    ensures ValueOk(h1, v)
  {
  }

  lemma Appended(h: Heap, c: Cell)
    requires HeapOk(h) && CellOk(h, c)
    ensures Grew(h, h + [c])
  {
    var h1 := h + [c];
    forall x | x in h1
      ensures CellOk(h1, x)
    {
      assert x in h || x == c;
      assert CellOk(h, x);
      CellKept(h, h1, x);
    }
  }

  lemma CellKept(h: Heap, h1: Heap, c: Cell)
    requires CellOk(h, c) && h <= h1
    ensures CellOk(h1, c)
  {
  }

  /** A decoded value: it is in the store, unfolds to t, and the reader is behind it. */
  ghost predicate Read(d: Decoded, h: Heap, t: Tree, depth: nat, rest: Reader)
    requires depth <= MAX_VALUE_DEPTH
  {
    d.Ok? && var (v, r, h1) := d.value;
    && r == rest && Grew(h, h1) && ValueOk(h1, v) && TreeOf(h1, v, depth) == t
  }

  /** A comma in front changes only the state of the reader. */
  lemma CommaDropped(floatBits: string -> nat, toks: seq<Tok>, stack: seq<State>, h: Heap, depth: nat)
    ensures DecodeValue(floatBits, Reader([Comma] + toks, ArrayComma, stack), h, depth)
         == DecodeValue(floatBits, Reader(toks, ArrayValue, stack), h, depth)
  {
    hide DecodeItems, DecodeEntries;
    assert ([Comma] + toks)[1..] == toks;
  }

  lemma ColonDropped(floatBits: string -> nat, toks: seq<Tok>, stack: seq<State>, h: Heap, depth: nat)
    ensures DecodeValue(floatBits, Reader([Colon] + toks, ObjectColon, stack), h, depth)
         == DecodeValue(floatBits, Reader(toks, ObjectValue, stack), h, depth)
  {
    hide DecodeItems, DecodeEntries;
    assert ([Colon] + toks)[1..] == toks;
  }

  lemma EncodeOpens(t: Tree, rest: seq<Tok>)
    requires Exact(t)
    ensures Encode(t) != [] &&
            var x := (Encode(t) + rest)[0]; !x.RBracket? && !x.RBrace? && !x.Comma? && !x.Colon? && !x.Raw?
  {
    hide EncodeParts;
  }

  lemma {:induction false} ScalarBack(floatBits: string -> nat, t: Tree, rest: seq<Tok>, state: State,
                                      stack: seq<State>, h: Heap, depth: nat)
    requires Exact(t) && !t.TList? && !t.TMap? && ValueAllowed(state) && HeapOk(h) && depth <= MAX_VALUE_DEPTH
    ensures Read(DecodeValue(floatBits, Reader(Encode(t) + rest, state, stack), h, depth), h, t, depth,
                 Reader(rest, ValueEnd(state), stack))
  {
    hide DecodeItems, DecodeEntries, FormatInt, ParseInt, HeapOk;
    assert (Encode(t) + rest)[1..] == rest;
    if t.TInt? { ParseIntUndoesFormatInt(t.i); }
  }

  /** Reading the tokens of a tree. */
  lemma {:induction false} ValueBack(floatBits: string -> nat, t: Tree, rest: seq<Tok>, state: State,
                                     stack: seq<State>, h: Heap, depth: nat)
    requires Exact(t) && ValueAllowed(state) && HeapOk(h) && depth + Height(t) <= MAX_VALUE_DEPTH
    ensures Read(DecodeValue(floatBits, Reader(Encode(t) + rest, state, stack), h, depth), h, t, depth,
                 Reader(rest, ValueEnd(state), stack))
    decreases t, 1, 0
  {
    hide DecodeItems, DecodeEntries, DecodeValue, Next, EncodeParts, HeapOk, Read;
    match t
    case TList(items) =>
      var toks := EncodeParts(t, 0) + ([RBracket] + rest);
      ItemsBack(floatBits, t, 0, rest, state, stack, h, depth, []);
      assert Encode(t) + rest == [LBracket] + toks;
      ListOpens(floatBits, toks, state, stack, h, depth);
    case TMap(keys, vals) =>
      var toks := EncodeParts(t, 0) + ([RBrace] + rest);
      EmptyEntries(t, h, depth);
      EntriesBack(floatBits, t, 0, rest, state, stack, h, depth, MapCell([], map[]));
      assert Encode(t) + rest == [LBrace] + toks;
      MapOpens(floatBits, toks, state, stack, h, depth);
    case _ =>
      ScalarBack(floatBits, t, rest, state, stack, h, depth);
  }

  lemma ListOpens(floatBits: string -> nat, toks: seq<Tok>, state: State, stack: seq<State>, h: Heap, depth: nat)
    requires ValueAllowed(state) && depth < MAX_VALUE_DEPTH
    ensures DecodeValue(floatBits, Reader([LBracket] + toks, state, stack), h, depth)
         == DecodeItems(floatBits, Reader(toks, ArrayStart, stack + [state]), h, depth + 1, [])
  {
    hide DecodeItems, DecodeEntries;
    assert ([LBracket] + toks)[1..] == toks;
  }

  lemma MapOpens(floatBits: string -> nat, toks: seq<Tok>, state: State, stack: seq<State>, h: Heap, depth: nat)
    requires ValueAllowed(state) && depth < MAX_VALUE_DEPTH
    ensures DecodeValue(floatBits, Reader([LBrace] + toks, state, stack), h, depth)
         == DecodeEntries(floatBits, Reader(toks, ObjectStart, stack + [state]), h, depth + 1, MapCell([], map[]))
  {
    hide DecodeItems, DecodeEntries;
    assert ([LBrace] + toks)[1..] == toks;
  }

  // ---- Arrays

  /** The first i items of a list tree have been read. */
  ghost predicate ItemsRead(t: Tree, i: nat, h: Heap, depth: nat, items: seq<Value>)
    requires t.TList? && i <= |t.items| && depth < MAX_VALUE_DEPTH
  {
    |items| == i && forall j :: 0 <= j < i ==> ValueOk(h, items[j]) && TreeOf(h, items[j], depth + 1) == t.items[j]
  }

  lemma ItemsStep(t: Tree, i: nat, h: Heap, h1: Heap, depth: nat, items: seq<Value>, v: Value)
    requires t.TList? && i < |t.items| && depth < MAX_VALUE_DEPTH
    requires ItemsRead(t, i, h, depth, items) && HeapOk(h) && Grew(h, h1)
    requires ValueOk(h1, v) && TreeOf(h1, v, depth + 1) == t.items[i]
    ensures ItemsRead(t, i + 1, h1, depth, items + [v])
  {
    hide TreeOf, HeapOk;
    forall j | 0 <= j < i
      ensures ValueOk(h1, items[j]) && TreeOf(h1, items[j], depth + 1) == t.items[j]
    {
      TreeKept(h, h1, items[j], depth + 1);
      ValueKept(h, h1, items[j]);
    }
  }

  lemma ListDone(t: Tree, h: Heap, depth: nat, items: seq<Value>)
    requires t.TList? && depth < MAX_VALUE_DEPTH && HeapOk(h) && ItemsRead(t, |t.items|, h, depth, items)
    ensures var h1 := h + [ListCell(items)];
            Grew(h, h1) && ValueOk(h1, ListRef(|h|)) && TreeOf(h1, ListRef(|h|), depth) == t
  {
    hide HeapOk, TreeOf, TreesOf;
    var h1 := h + [ListCell(items)];
    ListTree(h1, |h|, depth);
    assert CellOk(h, ListCell(items)) by {
      forall v | v in items ensures ValueOk(h, v) { var j :| 0 <= j < |items| && items[j] == v; }
    }
    Appended(h, ListCell(items));
    assert Children(h1, ListRef(|h|)) == items;
    forall j | 0 <= j < |items|
      ensures TreeOf(h1, items[j], depth + 1) == t.items[j]
    {
      TreeKept(h, h1, items[j], depth + 1);
    }
    assert TreesOf(h1, items, depth) == t.items;
  }

  lemma ItemsEnd(floatBits: string -> nat, rest: seq<Tok>, i: nat, state: State, stack: seq<State>, h: Heap,
                 depth: nat, items: seq<Value>)
    ensures DecodeItems(floatBits, Reader([RBracket] + rest, if i == 0 then ArrayStart else ArrayComma,
                                          stack + [state]), h, depth, items)
         == Ok((ListRef(|h|), Reader(rest, ValueEnd(state), stack), h + [ListCell(items)]))
  {
    hide DecodeValue, DecodeEntries;
    assert ([RBracket] + rest)[1..] == rest;
    assert (stack + [state])[..|stack|] == stack;
  }

  lemma ItemsGoOn(floatBits: string -> nat, r: Reader, v: Value, r1: Reader, h: Heap, h1: Heap, depth: nat,
                  items: seq<Value>)
    requires More(r) && DecodeValue(floatBits, r, h, depth) == Ok((v, r1, h1))
    ensures DecodeItems(floatBits, r, h, depth, items) == DecodeItems(floatBits, r1, h1, depth, items + [v])
  {
    hide DecodeValue, DecodeEntries;
  }

  lemma {:induction false} ItemsBack(floatBits: string -> nat, t: Tree, i: nat, rest: seq<Tok>, state: State,
                                     stack: seq<State>, h: Heap, depth: nat, items: seq<Value>)
    requires t.TList? && Exact(t) && i <= |t.items| && HeapOk(h) && depth + Height(t) <= MAX_VALUE_DEPTH
    requires ItemsRead(t, i, h, depth, items)
    ensures Read(DecodeItems(floatBits, Reader(EncodeParts(t, i) + ([RBracket] + rest),
                                               if i == 0 then ArrayStart else ArrayComma, stack + [state]),
                             h, depth + 1, items),
                 h, t, depth, Reader(rest, ValueEnd(state), stack))
    decreases t, 0, |t.items| - i
  {
    hide DecodeItems, DecodeEntries, DecodeValue, Next, Encode, HeapOk, TreeOf, ValueOk, ItemsRead;
    var close := [RBracket] + rest;
    if i == |t.items| {
      assert EncodeParts(t, i) + close == close;
      ItemsEnd(floatBits, rest, i, state, stack, h, depth + 1, items);
      ListDone(t, h, depth, items);
    } else {
      var tail := EncodeParts(t, i + 1) + close;
      var x := t.items[i];
      var toks := Encode(x) + tail;
      var r := Reader(EncodeParts(t, i) + close, if i == 0 then ArrayStart else ArrayComma, stack + [state]);
      assert r.toks == (if i == 0 then [] else [Comma]) + toks;
      EncodeOpens(x, tail);
      ValueBack(floatBits, x, tail, if i == 0 then ArrayStart else ArrayValue, stack + [state], h, depth + 1);
      if i > 0 { CommaDropped(floatBits, toks, stack + [state], h, depth + 1); } else { assert r.toks == toks; }
      var (v, r1, h1) := DecodeValue(floatBits, r, h, depth + 1).value;
      ItemsGoOn(floatBits, r, v, r1, h, h1, depth + 1, items);
      ItemsStep(t, i, h, h1, depth, items, v);
      ItemsBack(floatBits, t, i + 1, rest, state, stack, h1, depth, items + [v]);
    }
  }

  // ---- Objects

  /** The first i entries of a map tree have been read. */
  ghost predicate EntriesRead(t: Tree, i: nat, h: Heap, depth: nat, c: Cell)
    requires t.TMap? && |t.keys| == |t.vals| && i <= |t.keys| && depth < MAX_VALUE_DEPTH
  {
    && c.MapCell? && CellOk(h, c) && c.keys == t.keys[..i]
    && forall j :: 0 <= j < i ==> t.keys[j] in c.vals && TreeOf(h, c.vals[t.keys[j]], depth + 1) == t.vals[j]
  }

  lemma EmptyEntries(t: Tree, h: Heap, depth: nat)
    requires t.TMap? && |t.keys| == |t.vals| && depth < MAX_VALUE_DEPTH
    ensures EntriesRead(t, 0, h, depth, MapCell([], map[]))
  {
  }

  lemma EntriesStep(t: Tree, i: nat, h: Heap, h1: Heap, depth: nat, c: Cell, v: Value)
    requires t.TMap? && Exact(t) && i < |t.keys| && |t.keys| == |t.vals| && depth < MAX_VALUE_DEPTH
    requires EntriesRead(t, i, h, depth, c) && HeapOk(h) && Grew(h, h1)
    requires ValueOk(h1, v) && TreeOf(h1, v, depth + 1) == t.vals[i]
    ensures EntriesRead(t, i + 1, h1, depth, PutCell(c, t.keys[i], v))
  {
    hide TreeOf, HeapOk, Exact, CellOk, PutCell, ValueOk;
    var key := t.keys[i];
    KeyFresh(t, i, c, h);
    CellKept(h, h1, c);
    PutOk(h1, c, key, v);
    EntriesKept(t, i, h, h1, depth, c);
    PutAdds(c, key, v);
    hide Grew;
    var d := PutCell(c, key, v);
    forall j | 0 <= j < i + 1 ensures t.keys[j] in d.vals && TreeOf(h1, d.vals[t.keys[j]], depth + 1) == t.vals[j] {
      if j < i { assert t.keys[j] in c.vals && d.vals[t.keys[j]] == c.vals[t.keys[j]]; }
    }
    assert t.keys[..i] + [key] == t.keys[..i + 1];
  }

  lemma EntriesKept(t: Tree, i: nat, h: Heap, h1: Heap, depth: nat, c: Cell)
    requires t.TMap? && |t.keys| == |t.vals| && i <= |t.keys| && depth < MAX_VALUE_DEPTH
    requires EntriesRead(t, i, h, depth, c) && HeapOk(h) && Grew(h, h1)
    ensures forall j :: 0 <= j < i ==> t.keys[j] in c.vals && TreeOf(h1, c.vals[t.keys[j]], depth + 1) == t.vals[j]
  {
    hide TreeOf, HeapOk, CellOk;
    forall j | 0 <= j < i
      ensures t.keys[j] in c.vals && TreeOf(h1, c.vals[t.keys[j]], depth + 1) == t.vals[j]
    {
      EntryOk(h, c, t.keys[j]);
      TreeKept(h, h1, c.vals[t.keys[j]], depth + 1);
    }
  }

  /** A new key goes last and leaves the others alone. */
  lemma PutAdds(c: Cell, key: string, v: Value)
    requires c.MapCell? && key !in c.vals
    ensures var d := PutCell(c, key, v);
            && d.MapCell? && d.keys == c.keys + [key] && key in d.vals && d.vals[key] == v
            && forall k <- c.vals :: k in d.vals && d.vals[k] == c.vals[k]
  {
  }

  /** Storing a well-formed value keeps a map cell well formed. */
  lemma PutOk(h: Heap, c: Cell, key: string, v: Value)
    requires c.MapCell? && CellOk(h, c) && ValueOk(h, v)
    ensures CellOk(h, PutCell(c, key, v))
  {
  }

  lemma EntryOk(h: Heap, c: Cell, key: string)
    requires c.MapCell? && CellOk(h, c) && key in c.vals
    ensures ValueOk(h, c.vals[key])
  {
  }

  lemma KeyFresh(t: Tree, i: nat, c: Cell, h: Heap)
    requires t.TMap? && Exact(t) && i < |t.keys| && c.MapCell? && CellOk(h, c) && c.keys == t.keys[..i]
    ensures t.keys[i] !in c.vals && forall j :: 0 <= j < i ==> t.keys[j] != t.keys[i]
  {
  }

  lemma MapDone(t: Tree, h: Heap, depth: nat, c: Cell)
    requires t.TMap? && |t.keys| == |t.vals| && depth < MAX_VALUE_DEPTH && HeapOk(h)
    requires EntriesRead(t, |t.keys|, h, depth, c)
    ensures var h1 := h + [c];
            Grew(h, h1) && ValueOk(h1, MapRef(|h|)) && TreeOf(h1, MapRef(|h|), depth) == t
  {
    hide HeapOk, TreeOf, TreesOf;
    var h1 := h + [c];
    Appended(h, c);
    var m := MapRef(|h|);
    MapTree(h1, |h|, depth);
    assert KeysAt(h1, |h|) == t.keys;
    var items := Children(h1, m);
    forall j | 0 <= j < |items|
      ensures TreeOf(h1, items[j], depth + 1) == t.vals[j]
    {
      assert items[j] == c.vals[t.keys[j]];
      TreeKept(h, h1, items[j], depth + 1);
    }
    assert TreesOf(h1, items, depth) == t.vals;
  }

  lemma EntriesEnd(floatBits: string -> nat, rest: seq<Tok>, i: nat, state: State, stack: seq<State>, h: Heap,
                   depth: nat, c: Cell)
    requires c.MapCell?
    ensures DecodeEntries(floatBits, Reader([RBrace] + rest, if i == 0 then ObjectStart else ObjectComma,
                                            stack + [state]), h, depth, c)
         == Ok((MapRef(|h|), Reader(rest, ValueEnd(state), stack), h + [c]))
  {
    hide DecodeValue, DecodeItems;
    assert ([RBrace] + rest)[1..] == rest;
    assert (stack + [state])[..|stack|] == stack;
  }

  /** A key, with the comma in front of it and the colon behind it. */
  lemma EntryGoesOn(floatBits: string -> nat, i: nat, key: string, toks: seq<Tok>, stack: seq<State>, v: Value,
                    r1: Reader, h: Heap, h1: Heap, depth: nat, c: Cell)
    requires c.MapCell?
    requires DecodeValue(floatBits, Reader(toks, ObjectValue, stack), h, depth) == Ok((v, r1, h1))
    ensures DecodeEntries(floatBits, Reader((if i > 0 then [Comma] else []) + ([JStr(key), Colon] + toks),
                                            if i == 0 then ObjectStart else ObjectComma, stack), h, depth, c)
         == DecodeEntries(floatBits, r1, h1, depth, PutCell(c, key, v))
  {
    hide DecodeValue, DecodeItems;
    var plain := [JStr(key), Colon] + toks;
    var r := Reader((if i > 0 then [Comma] else []) + plain, if i == 0 then ObjectStart else ObjectComma, stack);
    assert plain[1..] == [Colon] + toks;
    if i > 0 {
      assert r.toks[1..] == plain;
      assert Next(r) == Next(Reader(plain, ObjectKey, stack));
    } else {
      assert r.toks == plain;
    }
    assert Next(r) == Ok((JStr(key), Reader([Colon] + toks, ObjectColon, stack)));
    ColonDropped(floatBits, toks, stack, h, depth);
  }

  lemma {:induction false} EntriesBack(floatBits: string -> nat, t: Tree, i: nat, rest: seq<Tok>, state: State,
                                       stack: seq<State>, h: Heap, depth: nat, c: Cell)
    requires t.TMap? && Exact(t) && i <= |t.keys| && HeapOk(h) && depth + Height(t) <= MAX_VALUE_DEPTH
    requires EntriesRead(t, i, h, depth, c)
    ensures Read(DecodeEntries(floatBits, Reader(EncodeParts(t, i) + ([RBrace] + rest),
                                                 if i == 0 then ObjectStart else ObjectComma, stack + [state]),
                               h, depth + 1, c),
                 h, t, depth, Reader(rest, ValueEnd(state), stack))
    decreases t, 0, |t.vals| - i
  {
    hide DecodeItems, DecodeEntries, DecodeValue, Next, Encode, HeapOk, TreeOf, ValueOk, EntriesRead, PutCell;
    assert c.MapCell? by { MapCellRead(t, i, h, depth, c); }
    var close := [RBrace] + rest;
    if i == |t.vals| {
      assert EncodeParts(t, i) + close == close;
      EntriesEnd(floatBits, rest, i, state, stack, h, depth + 1, c);
      MapDone(t, h, depth, c);
    } else {
      var tail := EncodeParts(t, i + 1) + close;
      var x := t.vals[i];
      var toks := Encode(x) + tail;
      ValueBack(floatBits, x, tail, ObjectValue, stack + [state], h, depth + 1);
      var (v, r1, h1) := DecodeValue(floatBits, Reader(toks, ObjectValue, stack + [state]), h, depth + 1).value;
      EntryGoesOn(floatBits, i, t.keys[i], toks, stack + [state], v, r1, h, h1, depth + 1, c);
      assert EncodeParts(t, i) + close == (if i > 0 then [Comma] else []) + ([JStr(t.keys[i]), Colon] + toks);
      EntriesStep(t, i, h, h1, depth, c, v);
      EntriesBack(floatBits, t, i + 1, rest, state, stack, h1, depth, PutCell(c, t.keys[i], v));
    }
  }

  lemma MapCellRead(t: Tree, i: nat, h: Heap, depth: nat, c: Cell)
    requires t.TMap? && |t.keys| == |t.vals| && i <= |t.keys| && depth < MAX_VALUE_DEPTH
    requires EntriesRead(t, i, h, depth, c)
    ensures c.MapCell?
  {
  }

  // ---- Trees of accepted values

  lemma {:induction false} MaxHeightBound(ts: seq<Tree>, n: nat)
    requires forall x <- ts :: Height(x) <= n
    ensures MaxHeight(ts) <= n
  {
    if ts != [] { MaxHeightBound(ts[1..], n); }
  }

  /** An accepted value's tree is one the decoder can read back. */
  lemma {:induction false} AcceptedTree(lib: Library, h: Heap, v: Value, depth: nat, inside: set<Value>)
    requires depth <= MAX_VALUE_DEPTH && HeapOk(h) && ValueOk(h, v) && Numbers(TreeOf(h, v, depth))
    requires Visit(lib, Json, h, v, depth, inside).stop.None?
    ensures Exact(TreeOf(h, v, depth)) && depth + Height(TreeOf(h, v, depth)) <= MAX_VALUE_DEPTH
    decreases MAX_VALUE_DEPTH - depth
  {
    hide HeapOk, Visit, VisitChildren, TreeOf, TreesOf, Exact, Numbers, Height, MaxHeight;
    if IsRef(v) {
      RefAccepted(lib, h, v, depth, inside);
      BodyAccepted(lib, Json, h, v, depth, inside);
      ChildrenOk(h, v);
      var items := Children(h, v);
      var ts := TreesOf(h, items, depth);
      PartsNumbers(h, v, depth);
      forall i | 0 <= i < |items|
        ensures Exact(ts[i]) && Height(ts[i]) <= MAX_VALUE_DEPTH - depth - 1
      {
        assert items[i] in items;
        ChildAccepted(lib, Json, h, v, 0, i, depth, inside + {v});
        AcceptedTree(lib, h, items[i], depth + 1, inside + {v});
      }
      MaxHeightBound(ts, MAX_VALUE_DEPTH - depth - 1);
      NodeAccepted(h, v, depth, ts);
    } else {
      ScalarAccepted(h, v, depth);
    }
  }

  lemma PartsNumbers(h: Heap, v: Value, depth: nat)
    requires IsRef(v) && depth < MAX_VALUE_DEPTH && Numbers(TreeOf(h, v, depth))
    ensures forall i :: 0 <= i < |Children(h, v)| ==> Numbers(TreeOf(h, Children(h, v)[i], depth + 1))
  {
    hide TreeOf, TreesOf;
    var ts := TreesOf(h, Children(h, v), depth);
    if v.ListRef? { ListTree(h, v.addr, depth); } else { MapTree(h, v.addr, depth); }
    assert forall i :: 0 <= i < |ts| ==> ts[i] in ts;
  }

  lemma NodeAccepted(h: Heap, v: Value, depth: nat, ts: seq<Tree>)
    requires IsRef(v) && depth < MAX_VALUE_DEPTH && HeapOk(h) && ValueOk(h, v)
    requires ts == TreesOf(h, Children(h, v), depth)
    requires (forall x <- ts :: Exact(x)) && MaxHeight(ts) <= MAX_VALUE_DEPTH - depth - 1
    ensures Exact(TreeOf(h, v, depth)) && depth + Height(TreeOf(h, v, depth)) <= MAX_VALUE_DEPTH
  {
    hide TreeOf, TreesOf, HeapOk, MaxHeight;
    if v.ListRef? {
      ListTree(h, v.addr, depth);
    } else {
      MapTree(h, v.addr, depth);
      KeysDistinct(h, v.addr);
    }
  }

  lemma ScalarAccepted(h: Heap, v: Value, depth: nat)
    requires !IsRef(v) && depth <= MAX_VALUE_DEPTH && Numbers(TreeOf(h, v, depth))
    ensures Exact(TreeOf(h, v, depth)) && Height(TreeOf(h, v, depth)) == 0
  {
    hide TreesOf;
  }

  lemma RefAccepted(lib: Library, h: Heap, v: Value, depth: nat, inside: set<Value>)
    requires depth <= MAX_VALUE_DEPTH && IsRef(v) && Visit(lib, Json, h, v, depth, inside).stop.None?
    ensures v !in inside
  {
    hide VisitChildren;
  }

  lemma KeysDistinct(h: Heap, a: nat)
    requires HeapOk(h) && ValueOk(h, MapRef(a))
    ensures forall i, j :: 0 <= i < j < |KeysAt(h, a)| ==> KeysAt(h, a)[i] != KeysAt(h, a)[j]
  {
    assert CellOk(h, h[a]);
  }

  // ---- The main results

  lemma {:induction false} FeedText(lib: Library, writes: seq<seq<Tok>>, w: string, limit: int)
    requires Feed(lib, writes, w, limit).1
    ensures Feed(lib, writes, w, limit).0 == w + Text(lib, Flatten(writes))
    decreases |writes|
  {
    if writes == [] {
      assert w + "" == w;
    } else {
      var text, rest := Text(lib, writes[0]), Flatten(writes[1..]);
      FeedText(lib, writes[1..], w + text, limit);
      TextConcat(lib, writes[0], rest);
      hide Text;
      assert w + text + Text(lib, rest) == w + (text + Text(lib, rest));
    }
  }

  lemma {:induction false} TextConcat(lib: Library, a: seq<Tok>, b: seq<Tok>)
    ensures Text(lib, a + b) == Text(lib, a) + Text(lib, b)
  {
    if a == [] {
      assert a + b == b;
    } else {
      assert (a + b)[1..] == a[1..] + b;
      TextConcat(lib, a[1..], b);
    }
  }

  /** What ToJSON returns is the text of the tokens of the value's tree. */
  lemma ToJsonWritesTree(lib: Library, h: Heap, v: Value)
    requires JsonText(lib, h, v).Ok? && Numbers(TreeOf(h, v, 0))
    ensures JsonText(lib, h, v).value == Text(lib, Encode(TreeOf(h, v, 0)))
  {
    hide Visit, TreeOf, Encode, Numbers;
    VisitEncodes(lib, h, v, 0, {});
    FeedText(lib, Visit(lib, Json, h, v, 0, {}).writes, "", MAX_OUTPUT_BYTES);
  }

  /**
   Every value ToJSON accepts decodes, in any store, to a value with the same tree: the depth
   limits agree, and the order of map keys is kept.
   */
  lemma JsonRoundTrips(lib: Library, floatBits: string -> nat, h: Heap, v: Value, h0: Heap)
    requires HeapOk(h) && ValueOk(h, v) && HeapOk(h0)
    requires JsonText(lib, h, v).Ok? && Numbers(TreeOf(h, v, 0))
    ensures var d := Document(floatBits, Encode(TreeOf(h, v, 0)), h0);
            && d.Ok? && var (v1, h1) := d.value;
            && h0 <= h1 && HeapOk(h1) && ValueOk(h1, v1) && TreeOf(h1, v1, 0) == TreeOf(h, v, 0)
  {
    hide Visit, TreeOf, Encode, Numbers, Exact, Height, HeapOk, DecodeValue;
    AcceptedTree(lib, h, v, 0, {});
    var t := TreeOf(h, v, 0);
    ValueBack(floatBits, t, [], TopValue, [], h0, 0);
    assert Encode(t) + [] == Encode(t);
  }

  // ---- Documents that are refused

  lemma SomethingNext(extra: seq<Tok>)
    requires extra != []
    ensures Next(Reader(extra, TopValue, [])) != Err(Eof)
  {
  }

  /** No document at all, and anything behind a document, is an error. */
  lemma {:induction false} NothingBehind(floatBits: string -> nat, t: Tree, extra: seq<Tok>, h: Heap)
    requires Exact(t) && HeapOk(h) && Height(t) <= MAX_VALUE_DEPTH && extra != []
    ensures Document(floatBits, Encode(t) + extra, h) == Err(TrailingData) && Document(floatBits, [], h) == Err(Eof)
  {
    hide TreeOf, Encode, Exact, Height, HeapOk;
    assert Document(floatBits, [], h) == Err(Eof);
    hide DecodeValue;
    ValueBack(floatBits, t, extra, TopValue, [], h, 0);
    SomethingNext(extra);
    hide Next;
  }

  /** The first brackets of a value that nests too deep. */
  function Brackets(n: nat): seq<Tok> { if n == 0 then [] else [LBracket] + Brackets(n - 1) }

  lemma {:induction false} TooManyBrackets(floatBits: string -> nat, n: nat, toks: seq<Tok>, state: State,
                                           stack: seq<State>, h: Heap, depth: nat)
    requires ValueAllowed(state) && depth <= MAX_VALUE_DEPTH < depth + n
    ensures DecodeValue(floatBits, Reader(Brackets(n) + toks, state, stack), h, depth) == Err(TooNested)
    decreases n
  {
    var more := Brackets(n - 1) + toks;
    assert Brackets(n) + toks == [LBracket] + more;
    if depth < MAX_VALUE_DEPTH {
      assert more[0] == LBracket by { assert Brackets(n - 1)[0] == LBracket; }
      TooManyBrackets(floatBits, n - 1, toks, ArrayStart, stack + [state], h, depth + 1);
      BracketOpens(floatBits, more, state, stack, h, depth);
    } else {
      hide Brackets, DecodeItems, DecodeEntries;
    }
  }

  lemma {:induction false} BracketOpens(floatBits: string -> nat, more: seq<Tok>, state: State, stack: seq<State>,
                                        h: Heap, depth: nat)
    requires ValueAllowed(state) && depth < MAX_VALUE_DEPTH && more != [] && more[0] == LBracket
    requires DecodeValue(floatBits, Reader(more, ArrayStart, stack + [state]), h, depth + 1) == Err(TooNested)
    ensures DecodeValue(floatBits, Reader([LBracket] + more, state, stack), h, depth) == Err(TooNested)
  {
    assert ([LBracket] + more)[1..] == more;
    assert DecodeItems(floatBits, Reader(more, ArrayStart, stack + [state]), h, depth + 1, []) == Err(TooNested) by {
      hide DecodeValue, Next;
    }
    hide DecodeItems, DecodeEntries;
  }

  /** A document of more than a thousand levels is refused, whatever is in it. */
  lemma {:induction false} TooDeepRefused(floatBits: string -> nat, n: nat, toks: seq<Tok>, h: Heap)
    requires n > 1000
    ensures Document(floatBits, Brackets(n) + toks, h) == Err(TooNested)
  {
    hide DecodeValue, Brackets, Next;
    TooManyBrackets(floatBits, n, toks, TopValue, [], h, 0);
  }
}
