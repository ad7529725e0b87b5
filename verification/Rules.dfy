/**
 What the other nodes and the expressions do (internal/vtl/eval.go:156-258, 377-900), rule by rule, in terms of
 their parts and of texts, numbers and the store alone.
 */
module Rules {
  import opened Common
  import opened Ast
  import opened Values
  import opened Format
  import opened Limits
  import opened Runtime
  import opened Methods
  import opened Eval
  import opened Meaning
  import opened Operations

  // ---- Blocks and text

  function Whole(parts: seq<string>): string { if parts == [] then "" else parts[0] + Whole(parts[1..]) }

  lemma {:induction false} PartsWritten(parts: seq<string>, st: State)
    requires |st.out| <= MAX_OUTPUT_BYTES
    ensures var o := WriteAll(parts, st);
      if |st.out| + |Whole(parts)| <= MAX_OUTPUT_BYTES then o == Ran((), st.(out := st.out + Whole(parts)))
      else o.Raised? && o.signal == OutputOverflow
    decreases |parts|
  {
    if parts == [] {
      assert st.out + "" == st.out;
    } else {
      var st1 := st.(out := st.out + parts[0]);
      assert st.out + parts[0] + Whole(parts[1..]) == st.out + (parts[0] + Whole(parts[1..]));
      if |st1.out| <= MAX_OUTPUT_BYTES { PartsWritten(parts[1..], st1); }
    }
  }

  /** Text is written behind the output, or the output is too long. */
  lemma {:induction false} TextIsWritten(env: Env, parts: seq<string>, st: State)
    requires |st.out| <= MAX_OUTPUT_BYTES
    ensures var o := Exec(env, Node.Text(parts), st);
      if |st.out| + |Whole(parts)| <= MAX_OUTPUT_BYTES then o == Ran((), st.(out := st.out + Whole(parts)))
      else o.Raised? && o.signal == OutputOverflow
  {
    PartsWritten(parts, st);
    hide WriteAll, Whole;
  }

  /** A reference is written as the whole text of its value, quietly or not. */
  lemma {:induction false} ReferenceIsPrinted(env: Env, ref: RefExpr, quiet: bool, st: State)
    requires |st.out| <= MAX_OUTPUT_BYTES
    ensures var v := Form(env, Ref(ref), st); var o := Exec(env, RefNode(ref, quiet), st);
      && (v.Raised? ==> o == Raised(v.signal, v.st))
      && (v.Ran? ==>
            var text := WholeText(env.lib, v.st.store.heap, v.value);
            if text.Some? && |v.st.out| + |text.value| <= MAX_OUTPUT_BYTES
            then o == Ran((), v.st.(out := v.st.out + text.value))
            else o.Raised? && o.st == v.st && (text.Some? ==> o.signal == OutputOverflow))
  {
    hide EvalRef, FormatText, WholeText, Form;
    FormOfRef(env, ref, st);
    PrintIs(env, ref, st);
    var v := EvalRef(env, ref, st);
    if v.Ran? { TextWithin(env, v.st, v.value, MAX_OUTPUT_BYTES - |v.st.out|); }
  }

  lemma {:induction false} PrintIs(env: Env, ref: RefExpr, st: State)
    ensures Exec(env, RefNode(ref, true), st) == Exec(env, RefNode(ref, false), st) == Print(env, ref, st)
  {
    hide Print;
  }

  lemma TextWithin(env: Env, st: State, v: Value, limit: nat)
    ensures var o := TextOf(env, st, v, limit); var text := WholeText(env.lib, st.store.heap, v);
      && (o.Ran? <==> text.Some? && |text.value| <= limit) && (o.Ran? ==> o.value == text.value) && o.st == st
      && (o.Raised? && text.Some? ==> o.signal == OutputOverflow)
  {
    TextIsWhole(env.lib, st.store.heap, v, limit);
    hide Feed, AllText, Visit;
  }

  /** A block runs its nodes in order, with a step for each. */
  lemma {:induction false} BlockIs(env: Env, n: Node, rest: seq<Node>, st: State)
    ensures Run(env, [], st) == Ran((), st)
    ensures var s := Step(st); var o := Exec(env, n, s.st);
      Run(env, [n] + rest, st) ==
      if s.Raised? then s else if o.Raised? then o else Run(env, rest, o.st)
  {
    assert ([n] + rest)[1..] == rest;
    hide Exec;
  }

  /** #break, #stop and #return end the block, the last with its value. */
  lemma {:induction false} EndsAre(env: Env, e: Expr, st: State)
    ensures Exec(env, BreakNode, st) == Raised(Broken, st) && Exec(env, StopNode, st) == Raised(Stopped, st)
    ensures Exec(env, ReturnNode(None), st) == Raised(Returned(Nil), st)
    ensures var v := Evaluate(env, e, st);
      Exec(env, ReturnNode(Some(e)), st) == Raised(if v.Ran? then Returned(v.value) else v.signal, v.st)
  {
    hide Evaluate;
  }

  /** A render gives its output, and what it returned; #stop and a #break outside loops end it well. */
  lemma RenderGives(o: Outcome<()>)
    ensures var r := RenderResult(o);
      && (r.Err? <==> o.Raised? && !o.signal.Returned? && o.signal != Stopped && o.signal != Broken)
      && (r.Err? ==> r.error == o.signal)
      && (r.Ok? ==> r.value.output == o.st.out)
      && (r.Ok? ==> (r.value.returned <==> o.Raised? && o.signal.Returned?))
      && (r.Ok? ==> r.value.value == if r.value.returned then o.signal.value else Nil)
  {
  }

  // ---- Literals, lists, ranges and maps

  lemma {:induction false} LiteralIs(env: Env, st: State, b: bool, i: int, s: string, digits: string)
    requires Step(st).Ran?
    ensures Evaluate(env, Literal(LNull), st) == Ran(Nil, Step(st).st)
    ensures Evaluate(env, Literal(LBool(b)), st) == Ran(Bool(b), Step(st).st)
    ensures Evaluate(env, Literal(LInt(i)), st) == Ran(Int(i), Step(st).st)
    ensures Evaluate(env, Literal(LStr(s)), st) == Ran(Str(s), Step(st).st)
    ensures Evaluate(env, Literal(LFloat(digits)), st) == Ran(Float(env.floatOf(digits)), Step(st).st)
  {
  }

  /** The values of expressions, evaluated from left to right; they leave the state last. */
  ghost predicate Evaluates(env: Env, es: seq<Expr>, st: State, vs: seq<Value>, last: State)
    decreases |es|
  {
    if es == [] then vs == [] && last == st
    else
      var o := Evaluate(env, es[0], st);
      vs != [] && o == Ran(vs[0], o.st) && Evaluates(env, es[1..], o.st, vs[1..], last)
  }

  lemma {:induction false} EvaluatesAll(env: Env, es: seq<Expr>, done: seq<Value>, st: State, vs: seq<Value>,
                                        last: State)
    requires Evaluates(env, es, st, vs, last)
    ensures EvaluateAll(env, es, done, st) == Ran(done + vs, last)
    decreases |es|
  {
    hide Evaluate;
    if es == [] {
      assert done + vs == done;
    } else {
      EvaluatesAll(env, es[1..], done + [vs[0]], Evaluate(env, es[0], st).st, vs[1..], last);
      assert done + [vs[0]] + vs[1..] == done + vs;
    }
  }

  /** A list literal is a new list of the values of its items, charged a slot for each beforehand. */
  lemma {:induction false} ListIs(env: Env, items: seq<Expr>, st: State, vs: seq<Value>, last: State)
    requires Step(st).Ran? && Charge(env, Step(st).st, |items| * SLOT_BYTES).Ran?
    requires Evaluates(env, items, Charge(env, Step(st).st, |items| * SLOT_BYTES).st, vs, last)
    ensures var h := last.store.heap;
      Evaluate(env, ListExpr(items), st) ==
      Ran(ListRef(|h|), last.(store := last.store.(heap := h + [ListCell(vs)])))
  {
    hide EvaluateAll, Charge, Form, Evaluates, Evaluate;
    FormIs(env, ListExpr(items), st);
    ListForm(env, items, Step(st).st);
    EvaluatesAll(env, items, [], Charge(env, Step(st).st, |items| * SLOT_BYTES).st, vs, last);
    assert [] + vs == vs;
  }

  lemma {:induction false} ListForm(env: Env, items: seq<Expr>, st: State)
    ensures Form(env, ListExpr(items), st) == MakeList(env, items, st)
  {
    hide MakeList;
  }

  predicate IsInt32(i: int) { -0x8000_0000 <= i < 0x8000_0000 }

  /** A range of two integers is a new list that counts from one toward the other, at most a thousand further. */
  lemma {:induction false} RangeIs(env: Env, from: Expr, to: Expr, st: State, a: int, b: int)
    requires Step(st).Ran? && IsInt32(a) && IsInt32(b)
    requires var f := Evaluate(env, from, Step(st).st);
      f.Ran? && f.value == Int(a) && Evaluate(env, to, f.st).Ran? && Evaluate(env, to, f.st).value == Int(b)
    ensures var t := Evaluate(env, to, Evaluate(env, from, Step(st).st).st); var h := t.st.store.heap;
      var o := Evaluate(env, RangeExpr(from, to), st); var n := 1 + (if Abs(b - a) <= 1000 then Abs(b - a) else 1000);
      && (o.Ran? <==> Charge(env, t.st, n * SLOT_BYTES).Ran?) && o.st.store.used == t.st.store.used + n * SLOT_BYTES
      && (o.Ran? ==>
        && o.value == ListRef(|h|) && |o.st.store.heap| == |h| + 1 && o.st.store.heap[..|h|] == h
        && o.st.store.heap[|h|].ListCell?
        && var items := o.st.store.heap[|h|].items;
          |items| == n && forall k :: 0 <= k < n ==> items[k] == Int(if b < a then a - k else a + k))
  {
    hide Evaluate, RangeItems, Form;
    var e := RangeExpr(from, to);
    FormIs(env, e, st);
    RangeForm(env, e, Step(st).st);
    var items := RangeItems(a, b, MAX_FOREACH_ITERATIONS);
    RangeCounts(a, b, MAX_FOREACH_ITERATIONS, 0);
    forall k | 0 <= k < |items| ensures items[k] == Int(if b < a then a - k else a + k) {
      RangeCounts(a, b, MAX_FOREACH_ITERATIONS, k);
    }
  }

  lemma {:induction false} RangeForm(env: Env, e: Expr, st: State)
    requires e.RangeExpr?
    ensures Form(env, e, st) == MakeRange(env, e, st)
  {
    hide MakeRange;
  }

  /** An entry under a key of a map: a new key is the last. */
  ghost predicate Entered(c: Cell, key: string, v: Value, d: Cell) {
    && c.MapCell? && d.MapCell? && d.vals == c.vals[key := v]
    && d.keys == if key in c.vals then c.keys else c.keys + [key]
  }

  /** Entries are evaluated in order, each key before its value, and entered one after the other. */
  ghost predicate Builds(env: Env, entries: seq<Entry>, c: Cell, st: State, d: Cell, last: State)
    requires c.MapCell?
    decreases |entries|
  {
    if entries == [] then d == c && last == st
    else
      var k := Evaluate(env, entries[0].key, st);
      var v := Evaluate(env, entries[0].val, k.st);
      && k.Ran? && v.Ran? && HasKey(env, v.st.store, k.value)
      && var key := KeyText(env, v.st.store, k.value);
        var st1 := v.st.(store := KeyCharged(env, v.st.store, k.value));
        var paid := if key in c.vals then Ran((), st1) else Charge(env, st1, SLOT_BYTES + |key|);
        && paid.Ran?
        && exists c1: Cell :: Entered(c, key, v.value, c1) && Builds(env, entries[1..], c1, paid.st, d, last)
  }

  lemma {:induction false} BuildsMap(env: Env, entries: seq<Entry>, c: Cell, st: State, d: Cell, last: State)
    requires c.MapCell? && Builds(env, entries, c, st, d, last)
    ensures MakeMap(env, entries, c, st) ==
            Ran(MapRef(|last.store.heap|), last.(store := last.store.(heap := last.store.heap + [d])))
    decreases |entries|
  {
    hide Evaluate, Key, HasKey, KeyText, KeyCharged;
    if entries != [] {
      var k := Evaluate(env, entries[0].key, st);
      var v := Evaluate(env, entries[0].val, k.st);
      KeyOfValue(env, v.st, k.value);
      var key := KeyText(env, v.st.store, k.value);
      var st1 := v.st.(store := KeyCharged(env, v.st.store, k.value));
      var paid := if key in c.vals then Ran((), st1) else Charge(env, st1, SLOT_BYTES + |key|);
      var c1: Cell :| Entered(c, key, v.value, c1) && Builds(env, entries[1..], c1, paid.st, d, last);
      assert c1 == PutCell(c, key, v.value);
      BuildsMap(env, entries[1..], c1, paid.st, d, last);
    }
  }

  /** A map literal is a new map of its entries. */
  lemma {:induction false} MapIs(env: Env, entries: seq<Entry>, st: State, d: Cell, last: State)
    requires Step(st).Ran? && Builds(env, entries, MapCell([], map[]), Step(st).st, d, last)
    ensures var h := last.store.heap;
      Evaluate(env, MapExpr(entries), st) == Ran(MapRef(|h|), last.(store := last.store.(heap := h + [d])))
  {
    hide MakeMap, Form, Builds, Evaluate;
    FormIs(env, MapExpr(entries), st);
    MapForm(env, entries, Step(st).st);
    BuildsMap(env, entries, MapCell([], map[]), Step(st).st, d, last);
  }

  lemma {:induction false} MapForm(env: Env, entries: seq<Entry>, st: State)
    ensures Form(env, MapExpr(entries), st) == MakeMap(env, entries, MapCell([], map[]), st)
  {
    hide MakeMap;
  }

  // ---- Operators

  /** ! is whether a value fails as a condition; - negates integers within their bits, and floats. */
  lemma {:induction false} UnaryIs(env: Env, x: Expr, st: State)
    requires Step(st).Ran?
    ensures var v := Evaluate(env, x, Step(st).st);
      && (v.Raised? ==> Evaluate(env, Unary(UnOp.Not, x), st) == Evaluate(env, Unary(Neg, x), st) == v)
      && (v.Ran? ==>
            && Evaluate(env, Unary(UnOp.Not, x), st) == Ran(Bool(IsFalse(v.value)), v.st)
            && var o := Evaluate(env, Unary(Neg, x), st);
              && o.Ran? && o.st == v.st
              && (v.value.Int? ==> o.value.Int? && Int64(o.value.i) && SameBits(o.value.i, -v.value.i))
              && (v.value.Float? ==> o.value == Float(env.floats.neg(v.value.bits)))
              && (!v.value.Int? && !v.value.Float? ==> o.value == Nil))
  {
    hide Evaluate, Form, Wrap64, SameBits;
    FormIs(env, Unary(UnOp.Not, x), st);
    FormIs(env, Unary(Neg, x), st);
    UnaryForm(env, UnOp.Not, x, Step(st).st);
    UnaryForm(env, Neg, x, Step(st).st);
    var v := Evaluate(env, x, Step(st).st);
    if v.Ran? && v.value.Int? { WrapSameBits(-v.value.i); }
  }

  lemma {:induction false} UnaryForm(env: Env, op: UnOp, x: Expr, st: State)
    ensures var v := Evaluate(env, x, st);
      Form(env, Unary(op, x), st) == if v.Ran? then Ran(UnaryValue(env, op, v.value), v.st) else v
  {
    hide Evaluate, UnaryValue;
  }

  /**
   && is false when the left side fails, || is true when it does not, and the right side is then not looked at;
   otherwise they are whether the right side does not fail.
   */
  lemma {:induction false} LogicIs(env: Env, l: Expr, r: Expr, st: State)
    requires Step(st).Ran? && Evaluate(env, l, Step(st).st).Ran?
    ensures var lv := Evaluate(env, l, Step(st).st); var rv := Evaluate(env, r, lv.st);
      var both := if rv.Ran? then Ran(Bool(!IsFalse(rv.value)), rv.st) else rv;
      && Evaluate(env, Binary(And, l, r), st) == (if IsFalse(lv.value) then Ran(Bool(false), lv.st) else both)
      && Evaluate(env, Binary(Or, l, r), st) == (if IsFalse(lv.value) then both else Ran(Bool(true), lv.st))
  {
    hide Evaluate, Form;
    FormIs(env, Binary(And, l, r), st);
    FormIs(env, Binary(Or, l, r), st);
    BinaryForm(env, And, l, r, Step(st).st);
    BinaryForm(env, Or, l, r, Step(st).st);
  }

  lemma {:induction false} BinaryForm(env: Env, op: BinOp, l: Expr, r: Expr, st: State)
    ensures var lv := Evaluate(env, l, st); var rv := Evaluate(env, r, lv.st);
      Form(env, Binary(op, l, r), st) ==
      if lv.Raised? then lv
      else if op == And && IsFalse(lv.value) then Ran(Bool(false), lv.st)
      else if op == Or && !IsFalse(lv.value) then Ran(Bool(true), lv.st)
      else if rv.Raised? then rv
      else BinaryValue(env, op, lv.value, rv.value, rv.st)
  {
    hide Evaluate, BinaryValue;
    assert Form(env, Binary(op, l, r), st) == EvalBinary(env, Binary(op, l, r), st);
  }

  /** Any other operator looks at both sides, the left one first. */
  lemma {:induction false} SidesInOrder(env: Env, op: BinOp, l: Expr, r: Expr, st: State)
    requires Step(st).Ran? && op != And && op != Or
    ensures var lv := Evaluate(env, l, Step(st).st); var rv := Evaluate(env, r, lv.st);
      && (lv.Raised? ==> Evaluate(env, Binary(op, l, r), st) == lv)
      && (lv.Ran? && rv.Raised? ==> Evaluate(env, Binary(op, l, r), st) == rv)
      && (lv.Ran? && rv.Ran? ==>
            Evaluate(env, Binary(op, l, r), st) == BinaryValue(env, op, lv.value, rv.value, rv.st))
  {
    hide Evaluate, Form, BinaryValue;
    FormIs(env, Binary(op, l, r), st);
    BinaryForm(env, op, l, r, Step(st).st);
  }

  /** A text is before another when it is shorter and the start of it, or has the smaller byte where they part. */
  ghost predicate Before(a: string, b: string) {
    || (|a| < |b| && a == b[..|a|])
    || exists k :: 0 <= k < |a| && k < |b| && a[..k] == b[..k] && a[k] < b[k]
  }

  lemma {:induction false} LessIsBefore(a: string, b: string)
    ensures StringLess(a, b) <==> Before(a, b)
  {
    if a != "" && b != "" {
      LessIsBefore(a[1..], b[1..]);
      if a[0] == b[0] {
        assert (|a| < |b| && a == b[..|a|]) <==> (|a[1..]| < |b[1..]| && a[1..] == b[1..][..|a[1..]|]) by {
          assert |a| <= |b| ==> b[1..][..|a[1..]|] == b[..|a|][1..];
          assert a == [a[0]] + a[1..];
          assert |a| <= |b| ==> b[..|a|] == [b[0]] + b[..|a|][1..];
        }
        if k :| 0 <= k < |a| && k < |b| && a[..k] == b[..k] && a[k] < b[k] {
          assert k > 0;
          assert a[1..][..k - 1] == a[..k][1..] && b[1..][..k - 1] == b[..k][1..];
          assert a[1..][k - 1] < b[1..][k - 1];
        }
        if k :| 0 <= k < |a[1..]| && k < |b[1..]| && a[1..][..k] == b[1..][..k] && a[1..][k] < b[1..][k] {
          assert a[..k + 1] == [a[0]] + a[1..][..k] && b[..k + 1] == [b[0]] + b[1..][..k];
          assert a[k + 1] < b[k + 1];
        }
      } else {
        if Before(a, b) { FirstBytes(a, b); }
        if a[0] < b[0] { assert a[..0] == b[..0]; }
      }
    }
  }

  lemma FirstBytes(a: string, b: string)
    requires a != "" && b != "" && Before(a, b)
    ensures a[0] <= b[0]
  {
    if |a| < |b| && a == b[..|a|] {
      assert a[0] == b[..|a|][0];
    } else {
      var k :| 0 <= k < |a| && k < |b| && a[..k] == b[..k] && a[k] < b[k];
      if k > 0 { assert a[0] == a[..k][0] == b[..k][0] == b[0]; }
    }
  }

  /** A number as a double. */
  ghost predicate IsNumber(env: Env, v: Value, bits: nat) {
    (v.Int? && bits == env.floats.of(v.i)) || (v.Float? && bits == v.bits)
  }

  /** Numbers compare as doubles. */
  lemma {:induction false} NumbersCompare(env: Env, l: Value, r: Value, x: nat, y: nat, st: State)
    requires OneIsLess(env.floats) && IsNumber(env, l, x) && IsNumber(env, r, y)
    ensures BinaryValue(env, Lt, l, r, st) == Ran(Bool(env.floats.less(x, y)), st)
    ensures BinaryValue(env, Gt, l, r, st) == Ran(Bool(env.floats.less(y, x)), st)
    ensures BinaryValue(env, Le, l, r, st) == Ran(Bool(!env.floats.less(y, x)), st)
    ensures BinaryValue(env, Ge, l, r, st) == Ran(Bool(!env.floats.less(x, y)), st)
  {
    hide StringLess, Arith, Equal;
  }

  /** Texts compare byte by byte. */
  lemma {:induction false} TextsCompare(env: Env, a: string, b: string, st: State)
    ensures BinaryValue(env, Lt, Str(a), Str(b), st) == Ran(Bool(Before(a, b)), st)
    ensures BinaryValue(env, Gt, Str(a), Str(b), st) == Ran(Bool(Before(b, a)), st)
    ensures BinaryValue(env, Le, Str(a), Str(b), st) == Ran(Bool(!Before(b, a)), st)
    ensures BinaryValue(env, Ge, Str(a), Str(b), st) == Ran(Bool(!Before(a, b)), st)
  {
    NotBothLess(a, b);
    LessIsBefore(a, b);
    LessIsBefore(b, a);
    hide Before, StringLess, Arith, Equal;
  }

  /** Nothing else compares. */
  lemma {:induction false} OthersDoNot(env: Env, op: BinOp, l: Value, r: Value, st: State)
    requires op in {Lt, Gt, Le, Ge} && !(l.Str? && r.Str?)
    requires !(l.Int? || l.Float?) || !(r.Int? || r.Float?)
    ensures BinaryValue(env, op, l, r, st) == Ran(Bool(false), st)
  {
    hide StringLess, Arith, Equal;
  }

  /** What == answers; != is the opposite. */
  lemma {:induction false} EqualityIs(env: Env, l: Value, r: Value, x: nat, y: nat, st: State)
    ensures BinaryValue(env, Eq, l, r, st) == Ran(Bool(Equal(env, st.store.heap, l, r)), st)
    ensures BinaryValue(env, Ne, l, r, st) == Ran(Bool(!Equal(env, st.store.heap, l, r)), st)
    ensures var eq := Equal(env, st.store.heap, l, r);
      && (l.Nil? || r.Nil? ==> (eq <==> l == r))
      && (IsNumber(env, l, x) && IsNumber(env, r, y) ==> (eq <==> env.floats.eq(x, y)))
      && (l.Bool? ==> (eq <==> l == r))
      && (IsRef(l) && l == r ==> eq)
  {
    hide FormatText, Arith, Compare;
  }

  /** Anything else is equal by its text: two strings, a number and a string, a boolean on the right. */
  lemma {:induction false} EqualityIsOfTexts(env: Env, h: Heap, l: Value, r: Value)
    requires !l.Nil? && !r.Nil? && !l.Bool? && !(IsRef(l) && l == r)
    requires !((l.Int? || l.Float?) && (r.Int? || r.Float?))
    ensures var a := WholeText(env.lib, h, l); var b := WholeText(env.lib, h, r);
      Equal(env, h, l, r) <==>
      a.Some? && b.Some? && |a.value| <= MAX_OUTPUT_BYTES && |b.value| <= MAX_OUTPUT_BYTES && a == b
    ensures l.Str? && r.Str? && |l.s| <= MAX_OUTPUT_BYTES ==> (Equal(env, h, l, r) <==> l.s == r.s)
  {
    TextIsWhole(env.lib, h, l, MAX_OUTPUT_BYTES);
    TextIsWhole(env.lib, h, r, MAX_OUTPUT_BYTES);
    assert l.Str? ==> WholeText(env.lib, h, l) == Some(l.s);
    assert r.Str? ==> WholeText(env.lib, h, r) == Some(r.s);
    hide FormatText, WholeText;
  }

  /** Integers are calculated in their 64 bits, other numbers as doubles, and + joins as soon as a side is a text. */
  lemma {:induction false} ArithmeticIs(env: Env, op: BinOp, l: Value, r: Value, x: nat, y: nat, st: State)
    requires op in {Add, Sub, Mul, Div, Mod}
    ensures var o := BinaryValue(env, op, l, r, st);
      && (l.Int? && r.Int? ==> o == Ran(IntArith(op, l.i, r.i), st))
      && (op == Add && (l.Str? || r.Str?) ==> o == Concat(env, l, r, st))
      && (IsNumber(env, l, x) && IsNumber(env, r, y) && !(l.Int? && r.Int?) ==>
            o == Ran(env.floats.arith(op, x, y), st))
      && ((!(l.Int? || l.Float?) || !(r.Int? || r.Float?)) && !(op == Add && (l.Str? || r.Str?)) ==> o == Ran(Nil, st))
  {
    hide Concat, IntArith, Equal, Compare;
  }

  // ---- References

  lemma {:induction false} StepsMore(env: Env, chain: seq<Accessor>, a: Accessor, i: nat, cur: Value, st: State)
    requires i <= |chain|
    ensures var p := Steps(env, chain, i, |chain|, cur, st);
      Steps(env, chain + [a], i, |chain| + 1, cur, st) ==
      if p.Raised? || p.value.Nil? then p else Access(env, p.value, a, p.st)
    decreases |chain| - i
  {
    hide Access;
    if i < |chain| && !cur.Nil? {
      assert (chain + [a])[i] == chain[i];
      var v := Access(env, cur, chain[i], st);
      if v.Ran? { StepsMore(env, chain, a, i + 1, v.value, v.st); }
    } else if i == |chain| && !cur.Nil? {
      assert (chain + [a])[i] == a;
      var v := Access(env, cur, a, st);
      if v.Ran? { assert Steps(env, chain + [a], i + 1, i + 1, v.value, v.st) == Ran(v.value, v.st); }
    }
  }

  /** One more step of a reference goes on from what the steps before it gave, unless that is null. */
  lemma {:induction false} StepIsAccess(env: Env, x: string, chain: seq<Accessor>, a: Accessor, st: State)
    ensures var p := Form(env, Ref(RefExpr(x, chain)), st);
      Form(env, Ref(RefExpr(x, chain + [a])), st) ==
      if p.Raised? || p.value.Nil? then p else Access(env, p.value, a, p.st)
  {
    hide Form, Steps, Access;
    RefIs(env, RefExpr(x, chain), st);
    RefIs(env, RefExpr(x, chain + [a]), st);
    if x in st.vars { StepsMore(env, chain, a, 0, st.vars[x], st); }
  }

  /** .name is the value under it in a map; of texts and lists there is only .empty. */
  lemma {:induction false} PropertyIs(env: Env, name: string, v: Value, st: State)
    ensures var o := Access(env, v, Property(name), st); var h := st.store.heap;
      && o.Ran? && o.st == st
      && (v.MapRef? && v.addr < |h| && h[v.addr].MapCell? ==>
            o.value == if name in h[v.addr].vals then h[v.addr].vals[name] else Nil)
      && (v.Str? ==> o.value == if name == "empty" then Bool(v.s == "") else Nil)
      && (v.ListRef? && v.addr < |h| && h[v.addr].ListCell? ==>
            o.value == if name == "empty" then Bool(h[v.addr].items == []) else Nil)
      && (v.Host? ==> o.value == env.hostGet(v.id, name))
      && (v.Nil? || v.Bool? || v.Int? || v.Float? ==> o.value == Nil)
  {
  }

  /** [index] is the item of a list in range, and the value under the text of the index in a map. */
  lemma {:induction false} IndexIs(env: Env, index: Expr, v: Value, st: State)
    ensures var i := Evaluate(env, index, st); var o := Access(env, v, Accessor.Index(index), st);
      && (i.Raised? ==> o == i)
      && (i.Ran? ==>
            && o.Ran? && o.st == i.st
            && var h := i.st.store.heap;
              && (v.ListRef? && v.addr < |h| && h[v.addr].ListCell? && i.value.Int? ==>
                    var items, n := h[v.addr].items, i.value.i;
                    o.value == if IsInt32(n) && 0 <= n < |items| then items[n] else Nil)
              && (v.MapRef? && v.addr < |h| && h[v.addr].MapCell? && i.value.Str? ==>
                    var vals, key := h[v.addr].vals, i.value.s;
                    |key| <= MAX_OUTPUT_BYTES ==> o.value == if key in vals then vals[key] else Nil)
              && (v.Str? || v.Nil? || v.Bool? || v.Int? || v.Float? ==> o.value == Nil))
  {
    hide Evaluate, Visit, Feed;
  }

  /** .name(args) evaluates its arguments from left to right and then calls. */
  lemma {:induction false} CallIs(env: Env, name: string, args: seq<Expr>, v: Value, st: State, vs: seq<Value>,
                                  last: State)
    requires Evaluates(env, args, st, vs, last)
    ensures Access(env, v, Accessor.Method(name, args), st) == CallMethod(env, v, name, vs, last)
  {
    hide EvaluateAll, CallMethod, Evaluates;
    EvaluatesAll(env, args, [], st, vs, last);
    assert [] + vs == vs;
  }

  // ---- #set through a reference

  lemma {:induction false} StepsBefore(env: Env, chain: seq<Accessor>, a: Accessor, i: nat, cur: Value, st: State)
    requires i <= |chain|
    ensures Steps(env, chain + [a], i, |chain|, cur, st) == Steps(env, chain, i, |chain|, cur, st)
    decreases |chain| - i
  {
    hide Access;
    if i < |chain| && !cur.Nil? {
      assert (chain + [a])[i] == chain[i];
      var v := Access(env, cur, chain[i], st);
      if v.Ran? { StepsBefore(env, chain, a, i + 1, v.value, v.st); }
    }
  }

  /**
   #set through a reference evaluates its value, then all of the reference but its last step, and stores the value
   there: under a name or an index, and nowhere when there is nothing to store into.
   */
  lemma {:induction false} SetStoresThrough(env: Env, x: string, chain: seq<Accessor>, a: Accessor, e: Expr, st: State)
    ensures var v := Evaluate(env, e, st); var p := Form(env, Ref(RefExpr(x, chain)), v.st);
      var o := Exec(env, SetNode(RefExpr(x, chain + [a]), e), st);
      && (v.Raised? ==> o == Raised(v.signal, v.st))
      && (v.Ran? && p.Raised? ==> o == Raised(p.signal, p.st))
      && (v.Ran? && p.Ran? && a.Property? ==>
            o == if p.value.MapRef? then PutEntry(env, p.st, p.value.addr, a.name, v.value) else Ran((), p.st))
      && (v.Ran? && p.Ran? && a.Index? ==>
            var i := Evaluate(env, a.index, p.st);
            o == if i.Ran? then SetIndex(env, i.st, p.value, i.value, v.value) else Raised(i.signal, i.st))
      && (v.Ran? && p.Ran? && a.Method? ==> o.Raised? && o.signal.Failed? && o.st == p.st)
  {
    hide Evaluate, Form, Steps, PutEntry, SetIndex;
    var v := Evaluate(env, e, st);
    if v.Ran? {
      var target := RefExpr(x, chain + [a]);
      ResolveBefore(env, x, chain, a, v.st);
      AssignIs(env, target, e, st);
      assert target.chain[|chain|] == a;
    }
    hide Exec, Resolve;
  }

  lemma {:induction false} ResolveBefore(env: Env, x: string, chain: seq<Accessor>, a: Accessor, st: State)
    ensures Resolve(env, RefExpr(x, chain + [a]), |chain|, st) == Form(env, Ref(RefExpr(x, chain)), st)
  {
    hide Form, Steps;
    RefIs(env, RefExpr(x, chain), st);
    if x in st.vars { StepsBefore(env, chain, a, 0, st.vars[x], st); }
  }

  lemma {:induction false} AssignIs(env: Env, target: RefExpr, e: Expr, st: State)
    requires target.chain != [] && Evaluate(env, e, st).Ran?
    ensures var v := Evaluate(env, e, st); var n := |target.chain| - 1; var p := Resolve(env, target, n, v.st);
      Exec(env, SetNode(target, e), st) ==
      if p.Raised? then Raised(p.signal, p.st) else StoreAt(env, target.chain[n], p.value, v.value, p.st)
  {
    hide Evaluate, AssignThrough;
    AssignThroughIs(env, target, Evaluate(env, e, st).value, Evaluate(env, e, st).st);
  }

  lemma {:induction false} AssignThroughIs(env: Env, target: RefExpr, v: Value, st: State)
    requires target.chain != []
    ensures var n := |target.chain| - 1; var p := Resolve(env, target, n, st);
      AssignThrough(env, target, v, st) ==
      if p.Raised? then Raised(p.signal, p.st) else StoreAt(env, target.chain[n], p.value, v, p.st)
  {
    hide Resolve, StoreAt;
  }

  /** A call on a text or a host object is left to its surroundings, which see the store and may change it. */
  lemma {:induction false} HostCallIs(env: Env, v: Value, name: string, args: seq<Value>, st: State)
    requires (v.Str? || v.Host?) && !(name == "toString" && args == []) && !(name == "equals" && |args| == 1)
    ensures var r := env.call(st.store, v, name, args); var o := CallMethod(env, v, name, args, st);
      && o.st == st.(store := r.store)
      && (r.result.Ok? ==> o.Ran? && o.value == r.result.value)
      && (r.result.Err? ==>
            && o.Raised?
            && (r.result.error.HostMemory? ==> o.signal == MemoryLimit)
            && (r.result.error.HostOutput? ==> o.signal == OutputOverflow)
            && (r.result.error.HostDepth? ==> o.signal == DepthOverflow)
            && (r.result.error.HostOther? ==> o.signal == Failed(r.result.error.msg)))
  {
  }

  /** A limit on steps that is not positive stands for a million. */
  lemma StepLimitIs(maxSteps: int)
    ensures StepLimit(maxSteps) == if maxSteps > 0 then maxSteps else 1_000_000
  {
  }
}
