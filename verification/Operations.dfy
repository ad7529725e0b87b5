/**
 What the operations of the evaluator mean (internal/vtl/eval.go:229-258, 448-482, 672-900): integers of 64
 bits, comparison, joining texts, ranges, and storing in lists and maps.
 */
module Operations {
  import opened Ast
  import opened Common
  import opened Eval
  import opened Format
  import opened Limits
  import opened Methods
  import opened Runtime
  import opened Values

  // ---- Integers

  const MIN_INT: int := -0x8000_0000_0000_0000

  predicate Int64(x: int) { -0x8000_0000_0000_0000 <= x < 0x8000_0000_0000_0000 }

  /** The same in the 64 bits that are kept. */
  ghost predicate SameBits(a: int, b: int) { exists k: int :: a - b == k * 0x1_0000_0000_0000_0000 }

  lemma WrapSameBits(x: int)
    ensures Int64(Wrap64(x)) && SameBits(Wrap64(x), x)
    ensures Int64(x) ==> Wrap64(x) == x
  {
    var y := x + 0x8000_0000_0000_0000;
    assert Wrap64(x) - x == -(y / 0x1_0000_0000_0000_0000) * 0x1_0000_0000_0000_0000;
  }

  /** Only one 64-bit integer has the bits of a number. */
  lemma BitsDecide(a: int, b: int, x: int)
    requires Int64(a) && Int64(b) && SameBits(a, x) && SameBits(b, x)
    ensures a == b
  {
    var k: int :| a - x == k * 0x1_0000_0000_0000_0000;
    var l: int :| b - x == l * 0x1_0000_0000_0000_0000;
    assert k == l;
  }

  function Abs(a: int): nat { if a < 0 then -a else a }

  lemma DivMod(x: nat, y: nat)
    requires y > 0
    ensures x == y * (x / y) + x % y && 0 <= x % y < y && (x == 0 ==> x % y == 0)
  {
  }

  lemma SignedProduct(y: int, q: int)
    ensures (-y) * q == -(y * q) && y * (-q) == -(y * q) && (-y) * (-q) == y * q
  {
  }

  /** Go's rest of a division: smaller than the divisor, and with the sign of the dividend. */
  function Rest(a: int, b: int): int
    requires b != 0
  {
    if a < 0 then -(Abs(a) % Abs(b)) else Abs(a) % Abs(b)
  }

  lemma QuotientAndRest(a: int, b: int)
    requires b != 0
    ensures a - b * TruncDiv(a, b) == Rest(a, b)
    ensures Abs(Rest(a, b)) < Abs(b) && (Rest(a, b) > 0 ==> a > 0) && (Rest(a, b) < 0 ==> a < 0)
  {
    DivMod(Abs(a), Abs(b));
    var q, m := Abs(a) / Abs(b), Abs(a) % Abs(b);
    SignedRest(a, b, q, m);
    assert TruncDiv(a, b) == if (a < 0) == (b < 0) then q else -q;
    assert Rest(a, b) == if a < 0 then -m else m;
    hide TruncDiv, Rest;
  }

  lemma SignedRest(a: int, b: int, q: int, m: int)
    requires Abs(a) == Abs(b) * q + m
    ensures a - b * (if (a < 0) == (b < 0) then q else -q) == if a < 0 then -m else m
  {
    SignedProduct(Abs(b), q);
  }

  /** The largest quotient is too large for 64 bits in one case only. */
  lemma QuotientFits(a: int, b: int)
    requires Int64(a) && Int64(b) && b != 0
    ensures Int64(TruncDiv(a, b)) <==> !(a == MIN_INT && b == -1)
    ensures a == MIN_INT && b == -1 ==> TruncDiv(a, b) == -MIN_INT
  {
    var x, y := Abs(a), Abs(b);
    if y == 1 {
      assert x / y == x;
    } else {
      HalfOrLess(x, y);
    }
  }

  lemma HalfOrLess(x: nat, y: nat)
    requires y >= 2
    ensures x / y <= x / 2
  {
    var q := x / y;
    assert y * q <= x;
    assert 2 * q <= y * q by { assert (y - 2) * q >= 0; }
  }

  function Exact(op: BinOp, a: int, b: int): int {
    match op
    case Add => a + b
    case Sub => a - b
    case _ => a * b
  }

  /** A sum, difference or product is the one 64-bit integer with the bits of the exact result. */
  lemma SumsWrap(op: BinOp, a: int, b: int)
    requires op in {Add, Sub, Mul}
    ensures IntArith(op, a, b).Int? && Int64(IntArith(op, a, b).i)
    ensures forall x :: Int64(x) && SameBits(x, Exact(op, a, b)) <==> x == IntArith(op, a, b).i
  {
    hide Wrap64, SameBits;
    WrapSameBits(Exact(op, a, b));
    forall x | Int64(x) && SameBits(x, Exact(op, a, b)) ensures x == IntArith(op, a, b).i {
      BitsDecide(x, IntArith(op, a, b).i, Exact(op, a, b));
    }
  }

  lemma ModIsRest(a: int, b: int)
    requires Int64(a) && Int64(b) && b != 0
    ensures IntArith(Mod, a, b) == Int(Rest(a, b))
  {
    hide TruncDiv, Rest, Wrap64;
    QuotientAndRest(a, b);
    var rest := Rest(a, b);
    WrapSameBits(rest);
  }

  /**
   Division by zero has no result. Otherwise the rest is exact, and so is the quotient, except for the one
   that 64 bits do not hold: that of the least integer and -1.
   */
  lemma DivisionAsInGo(a: int, b: int)
    requires Int64(a) && Int64(b)
    ensures b == 0 ==> IntArith(Div, a, b) == Nil && IntArith(Mod, a, b) == Nil
    ensures b != 0 ==> IntArith(Mod, a, b) == Int(Rest(a, b))
    ensures b != 0 ==> IntArith(Div, a, b).Int? && Int64(IntArith(Div, a, b).i)
    ensures b != 0 ==> (IntArith(Div, a, b) == Int(TruncDiv(a, b)) <==> !(a == MIN_INT && b == -1))
    ensures a == MIN_INT && b == -1 ==> IntArith(Div, a, b) == Int(MIN_INT)
  {
    if b != 0 {
      ModIsRest(a, b);
      QuotientFits(a, b);
      var q := TruncDiv(a, b);
      assert IntArith(Div, a, b) == Int(Wrap64(q));
      hide TruncDiv, Rest, IntArith;
      WrapSameBits(q);
      assert Wrap64(-MIN_INT) == MIN_INT;
    }
  }

  // ---- Ranges

  /**
   A range starts at a, goes one by one toward b, and ends at b unless it is cut off after limit more items.
   */
  lemma {:induction false} RangeCounts(a: int, b: int, limit: nat, k: nat)
    requires k < |RangeItems(a, b, limit)|
    ensures |RangeItems(a, b, limit)| == 1 + if Abs(b - a) <= limit then Abs(b - a) else limit
    ensures RangeItems(a, b, limit)[k] == Int(if b < a then a - k else a + k)
    decreases limit
  {
    if a != b && limit > 0 {
      var next := if b < a then a - 1 else a + 1;
      RangeCounts(next, b, limit - 1, if k == 0 then 0 else k - 1);
      assert k > 0 ==> RangeItems(a, b, limit)[k] == RangeItems(next, b, limit - 1)[k - 1];
    }
  }

  // ---- Comparison

  lemma {:induction false} NotBothLess(a: string, b: string)
    ensures !(StringLess(a, b) && StringLess(b, a))
    ensures StringLess(a, b) || StringLess(b, a) || a == b
  {
    if a != "" && b != "" && a[0] == b[0] {
      NotBothLess(a[1..], b[1..]);
      assert a == [a[0]] + a[1..] && b == [b[0]] + b[1..];
    }
  }

  lemma {:induction false} LessIsTransitive(a: string, b: string, c: string)
    requires StringLess(a, b) && StringLess(b, c)
    ensures StringLess(a, c)
  {
    if a != "" && a[0] == b[0] == c[0] { LessIsTransitive(a[1..], b[1..], c[1..]); }
  }

  /** Two numbers, or two texts. */
  predicate Comparable(env: Env, l: Value, r: Value) {
    (ToFloat(env, l).Some? && ToFloat(env, r).Some?) || (l.Str? && r.Str?)
  }

  /** No double is below another one that is below it. */
  ghost predicate OneIsLess(f: Floats) { forall a, b :: f.less(a, b) ==> !f.less(b, a) }

  /**
   The four comparisons belong together, in either order of the sides; values that do not compare satisfy
   none of them. For texts, neither below nor above means the same text; for doubles it need not.
   */
  lemma ComparisonsAgree(env: Env, l: Value, r: Value)
    requires OneIsLess(env.floats)
    ensures Compare(env, Lt, l, r) == Compare(env, Gt, r, l) && Compare(env, Le, l, r) == Compare(env, Ge, r, l)
    ensures !(Compare(env, Lt, l, r) && Compare(env, Gt, l, r))
    ensures Comparable(env, l, r) ==>
      Compare(env, Le, l, r) == !Compare(env, Gt, l, r) && Compare(env, Ge, l, r) == !Compare(env, Lt, l, r)
    ensures !Comparable(env, l, r) ==> forall op <- {Lt, Gt, Le, Ge} :: !Compare(env, op, l, r)
    ensures l.Str? && r.Str? ==> (Compare(env, Le, l, r) && Compare(env, Ge, l, r) <==> l == r)
  {
    if l.Str? && r.Str? { NotBothLess(l.s, r.s); }
  }

  /** Both have a text within the limit, and it is the same. */
  predicate SameText(env: Env, h: Heap, l: Value, r: Value) {
    var (a, b) := (FormatText(env.lib, h, l, MAX_OUTPUT_BYTES), FormatText(env.lib, h, r, MAX_OUTPUT_BYTES));
    a.1.None? && b.1.None? && a.0 == b.0
  }

  /** One is a boolean, and the other something else, not null, with the text of that boolean. */
  predicate BooleanInText(env: Env, h: Heap, l: Value, r: Value) {
    l.Bool? != r.Bool? && !l.Nil? && !r.Nil? && SameText(env, h, l, r)
  }

  /**
   Whether two values are equal depends on their order just when one of them is a boolean and the other
   has its text: the boolean on the left is unequal, the boolean on the right is equal.
   */
  lemma EqualityHasSides(env: Env, h: Heap, l: Value, r: Value)
    requires forall a, b :: env.floats.eq(a, b) == env.floats.eq(b, a)
    ensures Equal(env, h, l, r) == Equal(env, h, r, l) <==> !BooleanInText(env, h, l, r)
    ensures BooleanInText(env, h, l, r) ==> Equal(env, h, l, r) == r.Bool?
  {
    hide FormatText;
  }

  /** A template's "true" == true, and true != "true". */
  lemma BooleanAndItsText(env: Env, h: Heap)
    ensures Equal(env, h, Str("true"), Bool(true)) && !Equal(env, h, Bool(true), Str("true"))
  {
    OutcomeOne(env.lib, Scalar(env.lib, Plain, Bool(true)), "", MAX_OUTPUT_BYTES);
    assert Format.Text(env.lib, [Raw("true")]) == "true" by { assert [Raw("true")][1..] == []; }
  }

  // ---- Texts

  /** Both texts, one after the other. */
  function Joined(env: Env, h: Heap, l: Value, r: Value): Option<string> {
    var (a, b) := (WholeText(env.lib, h, l), WholeText(env.lib, h, r));
    if a.None? || b.None? then None else Some(a.value + b.value)
  }

  /** Whether n more bytes can be charged. */
  predicate Room(env: Env, s: Store, n: nat) { CheckStore(env, s, n).1 }

  /**
   + on a text and anything gives both texts, in order, charged by their length: it fails exactly when one
   of them has no text, both together are longer than a value may be, or the budget has no room for them.
   */
  lemma ConcatJoins(env: Env, l: Value, r: Value, st: State)
    ensures var o := Concat(env, l, r, st); var whole := Joined(env, st.store.heap, l, r);
      && (o.Ran? <==> whole.Some? && |whole.value| <= MAX_OUTPUT_BYTES && Room(env, st.store, |whole.value|))
      && (o.Ran? ==> o.value == Str(whole.value) && o.st.store.used == st.store.used + |whole.value|)
      && (o.Raised? ==> (o.signal == MemoryLimit <==> whole.Some? && |whole.value| <= MAX_OUTPUT_BYTES))
      && o.st == st.(store := st.store.(used := o.st.store.used, ticks := o.st.store.ticks))
  {
    var h := st.store.heap;
    TextIsWhole(env.lib, h, l, MAX_OUTPUT_BYTES);
    hide FormatText, WholeText;
    var (ls, failure) := FormatText(env.lib, h, l, MAX_OUTPUT_BYTES);
    if failure.None? { TextIsWhole(env.lib, h, r, MAX_OUTPUT_BYTES - |ls|); }
  }

  // ---- Storing

  /** A state that differs in one cell and in what has been charged. */
  ghost predicate OnlyCell(st: State, st1: State, addr: nat) {
    && st1.(store := st.store) == st
    && |st1.store.heap| == |st.store.heap|
    && (forall a :: 0 <= a < |st.store.heap| && a != addr ==> st1.store.heap[a] == st.store.heap[a])
  }

  /** Under key there is v, under any other key what was there; a new key is the last. */
  ghost predicate Holds(h: Heap, h1: Heap, addr: nat, key: string, v: Value) {
    && Lookup(h1, addr, key) == Some(v)
    && (forall k :: k != key ==> Lookup(h1, addr, k) == Lookup(h, addr, k))
    && KeysAt(h1, addr) == if Lookup(h, addr, key).Some? then KeysAt(h, addr) else KeysAt(h, addr) + [key]
  }

  /**
   An entry of a map reads back, and nothing else in the store changes. A new key costs a slot and its
   text, an old one nothing; only a new key can fail, and then nothing is stored.
   */
  lemma PutReadsBack(env: Env, st: State, addr: nat, key: string, v: Value)
    requires ValueOk(st.store.heap, MapRef(addr))
    ensures var o := PutEntry(env, st, addr, key, v); var h := st.store.heap; var isNew := Lookup(h, addr, key).None?;
      && o.st.store.used == st.store.used + (if isNew then SLOT_BYTES + |key| else 0)
      && (o.Ran? <==> isNew ==> Room(env, st.store, SLOT_BYTES + |key|))
      && (o.Raised? ==> o.signal == MemoryLimit && o.st.store.heap == h)
      && (o.Ran? ==> Holds(h, o.st.store.heap, addr, key, v))
      && OnlyCell(st, o.st, addr)
  {
  }

  /** The store stays well formed. */
  lemma PutKeepsOk(h: Heap, addr: nat, key: string, v: Value)
    requires HeapOk(h) && ValueOk(h, MapRef(addr)) && ValueOk(h, v)
    ensures HeapOk(SetCell(h, addr, PutCell(h[addr], key, v)))
  {
    var c, d := h[addr], PutCell(h[addr], key, v);
    assert CellOk(h, c);
    var h1 := SetCell(h, addr, d);
    assert forall w :: ValueOk(h, w) ==> ValueOk(h1, w);
    forall x | x in h1 ensures CellOk(h1, x) {
      if x == d {
        PutCellOk(h, c, key, v);
        SameKinds(h, h1, d);
      } else {
        assert x in h;
        SameKinds(h, h1, x);
      }
    }
  }

  lemma PutCellOk(h: Heap, c: Cell, key: string, v: Value)
    requires c.MapCell? && CellOk(h, c) && ValueOk(h, v)
    ensures CellOk(h, PutCell(c, key, v))
  {
    var d := PutCell(c, key, v);
    forall k ensures k in d.keys <==> k in d.vals {
      assert k in d.keys <==> k in c.keys || k == key;
    }
  }

  lemma SameKinds(h: Heap, h1: Heap, c: Cell)
    requires CellOk(h, c) && forall w :: ValueOk(h, w) ==> ValueOk(h1, w)
    ensures CellOk(h1, c)
  {
  }

  /** The key a value stands for, and whether it can be had: a text is its own, another's is charged. */
  predicate HasKey(env: Env, s: Store, idx: Value) {
    var text := WholeText(env.lib, s.heap, idx);
    idx.Str? || (text.Some? && |text.value| <= MAX_OUTPUT_BYTES && Room(env, s, |text.value|))
  }

  function KeyText(env: Env, s: Store, idx: Value): string
    requires HasKey(env, s, idx)
  {
    WholeText(env.lib, s.heap, idx).value
  }

  function KeyCharged(env: Env, s: Store, idx: Value): Store
    requires HasKey(env, s, idx)
  {
    if idx.Str? then s else s.(used := s.used + |KeyText(env, s, idx)|, ticks := s.ticks + 1)
  }

  lemma KeyOfValue(env: Env, st: State, idx: Value)
    ensures var o := Key(env, st, idx);
      && (o.Ran? <==> HasKey(env, st.store, idx))
      && (o.Ran? ==>
            o.value == KeyText(env, st.store, idx) && o.st == st.(store := KeyCharged(env, st.store, idx)))
      && OnlyCell(st, o.st, 0) && o.st.store.heap == st.store.heap
  {
    TextIsWhole(env.lib, st.store.heap, idx, MAX_OUTPUT_BYTES);
    assert idx.Str? ==> WholeText(env.lib, st.store.heap, idx) == Some(idx.s);
    hide FormatText, WholeText;
  }

  /** The key can be had and, if it is new, its entry can be charged. */
  predicate EntryFits(env: Env, s: Store, addr: nat, idx: Value) {
    && HasKey(env, s, idx)
    && var key := KeyText(env, s, idx);
      Lookup(s.heap, addr, key).None? ==> Room(env, KeyCharged(env, s, idx), SLOT_BYTES + |key|)
  }

  /** #set through an index of a map stores the entry under the text of the index. */
  lemma SetMapStores(env: Env, st: State, addr: nat, idx: Value, v: Value)
    requires ValueOk(st.store.heap, MapRef(addr))
    ensures var o := SetIndex(env, st, MapRef(addr), idx, v); var h := st.store.heap;
      && OnlyCell(st, o.st, addr)
      && (o.Ran? <==> EntryFits(env, st.store, addr, idx))
      && (o.Ran? ==> Holds(h, o.st.store.heap, addr, KeyText(env, st.store, idx), v))
      && (o.Raised? ==> o.st.store.heap == h)
  {
    KeyOfValue(env, st, idx);
    var k := Key(env, st, idx);
    if k.Ran? { PutReadsBack(env, k.st, addr, k.value, v); }
    hide WholeText, PutEntry, Key, Holds, HasKey, Room, KeyText, KeyCharged;
  }

  predicate InList(h: Heap, target: Value, i: Option<int>) {
    target.ListRef? && i.Some? && 0 <= i.value < |ListAt(h, target.addr)|
  }

  /**
   #set through an index of anything else: an item of a list within its bounds is replaced; out of bounds,
   or without a list, nothing happens. Neither is charged or fails.
   */
  lemma SetItemStores(env: Env, st: State, target: Value, idx: Value, v: Value)
    requires ValueOk(st.store.heap, target) && !target.MapRef?
    ensures var o := SetIndex(env, st, target, idx, v); var h := st.store.heap; var i := ToInt(env, idx);
      && o.Ran?
      && (!InList(h, target, i) ==> o.st == st)
      && (InList(h, target, i) ==>
            && OnlyCell(st, o.st, target.addr) && o.st.store.used == st.store.used
            && ListAt(o.st.store.heap, target.addr) == ListAt(h, target.addr)[i.value := v])
  {
    hide ToInt;
  }

  /**
   What is stored through an index is read through the same index, if the index still has the text of its
   key: the text of a list or map may have changed with what was stored, and one that is too long is cut.
   */
  lemma StoredIsRead(env: Env, st: State, target: Value, idx: Value, v: Value)
    requires ValueOk(st.store.heap, target) && SetIndex(env, st, target, idx, v).Ran?
    ensures var h := SetIndex(env, st, target, idx, v).st.store.heap;
      && (InList(st.store.heap, target, ToInt(env, idx)) ==> IndexInto(env, h, target, idx) == v)
      && (target.MapRef? && HasKey(env, st.store, idx) && Stringify(env, h, idx) == KeyText(env, st.store, idx) ==>
            IndexInto(env, h, target, idx) == v)
  {
    hide FormatText, WholeText, ToInt, Key, PutEntry, HasKey, KeyText, Room;
    if target.MapRef? {
      SetMapStores(env, st, target.addr, idx, v);
    } else {
      SetItemStores(env, st, target, idx, v);
    }
  }

  /** The text of what is no list or map does not change, and is its key when it is not too long. */
  lemma ScalarKeepsKey(env: Env, s: Store, h: Heap, idx: Value)
    requires !IsRef(idx) && HasKey(env, s, idx) && |KeyText(env, s, idx)| <= MAX_OUTPUT_BYTES
    ensures Stringify(env, h, idx) == KeyText(env, s, idx)
  {
    TextIsWhole(env.lib, h, idx, MAX_OUTPUT_BYTES);
    assert WholeText(env.lib, h, idx) == WholeText(env.lib, s.heap, idx);
    hide FormatText, WholeText;
  }

  // ---- Calls

  predicate Mutates(name: string) { name in {"add", "addAll", "set", "remove", "put", "putAll"} }

  /** Whether a call goes to the methods of lists and maps. */
  predicate ToCollection(v: Value, name: string, args: seq<Value>) {
    IsRef(v) && !(name == "toString" && args == []) && !(name == "equals" && |args| == 1)
  }

  /** The cells there were, but for the one at addr if it may change. */
  ghost predicate Keeps(h: Heap, h1: Heap, addr: nat, mayChange: bool) {
    |h| <= |h1| && forall a :: 0 <= a < |h| && !(mayChange && a == addr) ==> h1[a] == h[a]
  }

  lemma ListCallKeeps(env: Env, h: Heap, a: nat, name: string, args: seq<Value>)
    requires IsListMethod(name)
    ensures Keeps(h, CallList(env, h, a, name, args).heap, a, Mutates(name))
  {
    hide ToInt, IndexOf, Equal;
  }

  lemma MapCallKeeps(env: Env, h: Heap, a: nat, name: string, args: seq<Value>)
    requires IsMapMethod(name)
    ensures Keeps(h, CallMap(env, h, a, name, args).heap, a, Mutates(name))
  {
    hide FormatText, PutEntries, RemoveKey, EntryCells, PutCell;
  }

  /**
   A call on a list or map changes no other list or map, and its own only by the methods that are there
   for it; what it creates is new. A call that would not fit is refused with nothing done.
   */
  lemma CallTouchesReceiver(env: Env, v: Value, name: string, args: seq<Value>, st: State)
    requires IsRef(v)
    ensures var o := CallMethod(env, v, name, args, st);
      && o.st.(store := st.store) == st
      && Keeps(st.store.heap, o.st.store.heap, v.addr, ToCollection(v, name, args) && Mutates(name))
      && (ToCollection(v, name, args) ==>
            var more := ExpectedGrowth(st.store.heap, v, name, args) * SLOT_BYTES;
            !Room(env, st.store, more) ==>
              o == Raised(MemoryLimit, st.(store := st.store.(ticks := st.store.ticks + 1))))
  {
    hide FormatText, Equal, ExpectedGrowth, Growth, CallList, CallMap;
    if Known(v, name) {
      if v.ListRef? {
        ListCallKeeps(env, st.store.heap, v.addr, name, args);
      } else {
        MapCallKeeps(env, st.store.heap, v.addr, name, args);
      }
    }
  }

  /** toString and equals look alike on every value: the text of the value, charged, and equality. */
  lemma TextAndEquality(env: Env, v: Value, arg: Value, st: State)
    ensures CallMethod(env, v, "equals", [arg], st) == Ran(Bool(Equal(env, st.store.heap, v, arg)), st)
    ensures var o := CallMethod(env, v, "toString", [], st); var text := WholeText(env.lib, st.store.heap, v);
      && (o.Ran? <==> text.Some? && |text.value| <= MAX_OUTPUT_BYTES && Room(env, st.store, |text.value|))
      && (o.Ran? ==> o.value == Str(text.value) && o.st.store.used == st.store.used + |text.value|)
  {
    TextIsWhole(env.lib, st.store.heap, v, MAX_OUTPUT_BYTES);
    hide FormatText, WholeText, Equal;
  }

  /** A key put is found with its value; the call gives back what was under the key before. */
  lemma PutThenGet(env: Env, h: Heap, a: nat, key: string, v: Value)
    requires ValueOk(h, MapRef(a)) && |key| <= MAX_OUTPUT_BYTES
    ensures var put := CallMap(env, h, a, "put", [Str(key), v]);
      && put.value == CallMap(env, h, a, "get", [Str(key)]).value
      && Holds(h, put.heap, a, key, v)
      && CallMap(env, put.heap, a, "get", [Str(key)]) == Called(v, put.heap)
  {
    hide Visit, Feed;
  }

  /** Removing a key that was not there before it was put leaves the store as it was. */
  lemma RemoveUndoesPut(env: Env, h: Heap, a: nat, key: string, v: Value)
    requires HeapOk(h) && ValueOk(h, MapRef(a)) && |key| <= MAX_OUTPUT_BYTES && Lookup(h, a, key).None?
    ensures var put := CallMap(env, h, a, "put", [Str(key), v]);
      CallMap(env, put.heap, a, "remove", [Str(key)]) == Called(v, h)
  {
    assert CellOk(h, h[a]);
    RemoveUndoesPutCell(h[a], key, v);
    var d := PutCell(h[a], key, v);
    PutCall(env, h, a, key, v);
    assert d.MapCell? && key in d.vals && d.vals[key] == v;
    hide CallMap, PutCell, RemoveKey, CellOk;
    RemoveCall(env, h[a := d], a, key);
    assert h[a := d][a := h[a]] == h;
  }

  lemma PutCall(env: Env, h: Heap, a: nat, key: string, v: Value)
    requires ValueOk(h, MapRef(a)) && |key| <= MAX_OUTPUT_BYTES
    ensures CallMap(env, h, a, "put", [Str(key), v]).heap == h[a := PutCell(h[a], key, v)]
  {
    hide PutCell, Visit, Feed;
    assert PutCell(h[a], key, v).MapCell? by { IsMapCell(h[a], key, v); }
  }

  lemma IsMapCell(c: Cell, key: string, v: Value)
    requires c.MapCell?
    ensures PutCell(c, key, v).MapCell?
  {
  }

  lemma RemoveCall(env: Env, h: Heap, a: nat, key: string)
    requires ValueOk(h, MapRef(a)) && |key| <= MAX_OUTPUT_BYTES && key in h[a].vals
    ensures CallMap(env, h, a, "remove", [Str(key)]) == Called(h[a].vals[key], h[a := RemoveKey(h[a], key)])
  {
    hide Visit, Feed, Removed, KeyIndex;
  }

  lemma RemoveUndoesPutCell(c: Cell, key: string, v: Value)
    requires c.MapCell? && key !in c.vals && key !in c.keys
    ensures RemoveKey(PutCell(c, key, v), key) == c
  {
    LastKey(c.keys, key);
    assert c.vals[key := v] - {key} == c.vals;
  }

  lemma {:induction false} LastKey(keys: seq<string>, key: string)
    requires key !in keys
    ensures KeyIndex(keys + [key], key) == |keys| && Removed(keys + [key], |keys|) == keys
  {
    if keys != [] {
      assert (keys + [key])[1..] == keys[1..] + [key];
      LastKey(keys[1..], key);
    }
  }

  /** Setting an item gives the one it replaces, and setting that one again undoes it. */
  lemma SetUndoesSet(env: Env, h: Heap, a: nat, i: int, v: Value)
    requires ValueOk(h, ListRef(a)) && 0 <= i < |ListAt(h, a)| && i <= 0x7fff_ffff
    ensures var put := CallList(env, h, a, "set", [Int(i), v]);
      && put.value == ListAt(h, a)[i]
      && CallList(env, put.heap, a, "get", [Int(i)]) == Called(v, put.heap)
      && CallList(env, put.heap, a, "set", [Int(i), put.value]) == Called(v, h)
  {
    var items := ListAt(h, a);
    assert items[i := v][i := items[i]] == items;
    assert h[a := ListCell(items[i := v])][a := ListCell(items)] == h;
  }
}
