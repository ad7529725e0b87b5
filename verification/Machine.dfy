/**
 The evaluator as the repository runs it: an object whose methods update the variables, the
 output, the step count and the store. Every method is proved to return, and to leave behind,
 what the evaluator's functions say.
 */
module Machines {
  import opened Common
  import opened Ast
  import opened Values
  import opened Format
  import opened Limits
  import opened Runtime
  import opened Methods
  import opened Eval

  class Machine {
    const env: Env
    const budget: Option<nat>
    var vars: map<string, Value>
    var out: string
    var steps: nat
    var store: Store

    constructor (env: Env, vars: map<string, Value>, steps: nat, budget: Option<nat>, store: Store)
      ensures this.env == env && Now() == State(vars, "", steps, budget, store)
    {
      this.env, this.budget := env, budget;
      this.vars, this.out, this.steps, this.store := vars, "", steps, store;
    }

    ghost function Now(): State
      reads this
    {
      State(vars, out, steps, budget, store)
    }

    /** r and the state of the machine are the outcome o. */
    ghost predicate Agrees<T(!new)>(r: Result<T, Signal>, o: Outcome<T>)
      reads this
    {
      match o
      case Ran(v, st) => r == Ok(v) && Now() == st
      case Raised(signal, st) => r == Err(signal) && Now() == st
    }

    // ---- Steps, output and memory

    method TakeStep() returns (r: Result<(), Signal>)
      modifies this`steps
      ensures Agrees(r, Step(old(Now())))
    {
      steps := steps + 1;
      r := if budget.Some? && steps > budget.value then Err(StepBudget) else Ok(());
    }

    method WriteString(s: string) returns (r: Result<(), Signal>)
      modifies this`out
      ensures Agrees(r, Write(old(Now()), s))
    {
      if |out| + |s| > MAX_OUTPUT_BYTES { return Err(OutputOverflow); }
      out := out + s;
      r := Ok(());
    }

    method ChargeBytes(n: nat) returns (r: Result<(), Signal>)
      modifies this`store
      ensures Agrees(r, Charge(env, old(Now()), n))
    {
      var (s, ok) := ChargeStore(env, store, n);
      store := s;
      r := if ok then Ok(()) else Err(MemoryLimit);
    }

    method Format(v: Value, limit: int) returns (r: Result<string, Signal>)
      ensures Agrees(r, TextOf(env, Now(), v, limit))
    {
      hide Visit, Feed;
      var text, failure := FormatWithin(env.lib, store.heap, v, limit);
      r := if failure.Some? then Err(FailureSignal(failure.value)) else Ok(text);
    }

    /** Enters a new cell into the store and returns its address. */
    method New(c: Cell) returns (addr: nat)
      modifies this`store
      ensures addr == |old(store).heap| && store == Alloc(old(store), c)
    {
      addr := |store.heap|;
      store := Alloc(store, c);
    }

    // ---- Nodes

    method RunBlock(body: seq<Node>) returns (r: Result<(), Signal>)
      modifies this
      ensures Agrees(r, Run(env, body, old(Now())))
      decreases body, 0
    {
      hide Exec;
      ghost var whole := Run(env, body, Now());
      var i := 0;
      while i < |body|
        invariant i <= |body|
        invariant whole == Run(env, body[i..], Now())
      {
        assert body[i..][0] == body[i] && body[i..][1..] == body[i + 1..];
        var _ :- TakeStep();
        var _ :- ExecNode(body[i]);
        i := i + 1;
      }
      r := Ok(());
    }

    method ExecNode(n: Node) returns (r: Result<(), Signal>)
      modifies this
      ensures Agrees(r, Exec(env, n, old(Now())))
      decreases n, 1
    {
      hide WriteAll, Print, Assign, Branches, Foreach, Return;
      match n {
        case Text(parts) => r := ExecText(parts);
        case RefNode(ref, _) => r := ExecRef(ref);
        case SetNode(_, _) => r := ExecSet(n);
        case IfNode(_, _) => r := ExecIf(n);
        case ForeachNode(_, _, _) => r := ExecForeach(n);
        case BreakNode => r := Err(Broken);
        case StopNode => r := Err(Stopped);
        case ReturnNode(result) => r := ExecReturn(result);
      }
    }

    method ExecText(parts: seq<string>) returns (r: Result<(), Signal>)
      modifies this`out
      ensures Agrees(r, WriteAll(parts, old(Now())))
    {
      hide Write;
      ghost var whole := WriteAll(parts, Now());
      var i := 0;
      while i < |parts|
        invariant i <= |parts|
        invariant whole == WriteAll(parts[i..], Now())
      {
        assert parts[i..][0] == parts[i] && parts[i..][1..] == parts[i + 1..];
        var _ :- WriteString(parts[i]);
        i := i + 1;
      }
      r := Ok(());
    }

    method ExecRef(ref: RefExpr) returns (r: Result<(), Signal>)
      modifies this
      ensures Agrees(r, Print(env, ref, old(Now())))
      decreases ref, 1
    {
      hide EvalRef, TextOf, Write;
      var v :- Reference(ref);
      var text :- Format(v, MAX_OUTPUT_BYTES - |out|);
      r := WriteString(text);
    }

    method ExecSet(n: Node) returns (r: Result<(), Signal>)
      requires n.SetNode?
      modifies this
      ensures Agrees(r, Assign(env, n, old(Now())))
      decreases n, 0
    {
      hide Evaluate, AssignThrough;
      var v :- Value(n.value);
      if n.target.chain == [] {
        vars := vars[n.target.name := v];
        return Ok(());
      }
      r := SetThrough(n.target, v);
    }

    method SetThrough(target: RefExpr, v: Value) returns (r: Result<(), Signal>)
      requires target.chain != []
      modifies this
      ensures Agrees(r, AssignThrough(env, target, v, old(Now())))
      decreases target, 1
    {
      hide Resolve, StoreAt;
      var n := |target.chain| - 1;
      var parent :- ResolveChain(target, n);
      r := SetAt(target.chain[n], parent, v);
    }

    method SetAt(a: Accessor, parent: Value, v: Value) returns (r: Result<(), Signal>)
      modifies this
      ensures Agrees(r, StoreAt(env, a, parent, v, old(Now())))
      decreases a, 0
    {
      hide Evaluate, SetIndex, PutEntry;
      match a {
        case Property(name) =>
          if parent.MapRef? { r := Put(parent.addr, name, v); } else { r := Ok(()); }
        case Index(index) =>
          var idx :- Value(index);
          r := SetItem(parent, idx, v);
        case Method(_, _) =>
          r := Err(Failed("cannot #set a method call"));
      }
    }

    /** Stores v in the map at addr, charging a new entry. */
    method Put(addr: nat, key: string, v: Value) returns (r: Result<(), Signal>)
      modifies this`store
      ensures Agrees(r, PutEntry(env, old(Now()), addr, key, v))
    {
      hide Charge, SetCell, PutCell;
      var c := MapAt(store.heap, addr);
      ChargeKeepsHeap(Now(), SLOT_BYTES + |key|);
      if key !in c.vals {
        var _ :- ChargeBytes(SLOT_BYTES + |key|);
      }
      store := store.(heap := SetCell(store.heap, addr, PutCell(c, key, v)));
      r := Ok(());
    }

    lemma ChargeKeepsHeap(st: State, n: nat)
      ensures Charge(env, st, n).st.store.heap == st.store.heap
    {
    }

    method SetItem(target: Value, idx: Value, v: Value) returns (r: Result<(), Signal>)
      modifies this`store
      ensures Agrees(r, SetIndex(env, old(Now()), target, idx, v))
    {
      hide Key, PutEntry, SetItems;
      match target {
        case MapRef(a) =>
          var key :- KeyOf(idx);
          r := Put(a, key, v);
        case ListRef(a) =>
          var i := ToInt(env, idx);
          var items := ListAt(store.heap, a);
          if i.Some? && 0 <= i.value < |items| {
            store := store.(heap := SetItems(store.heap, a, items[i.value := v]));
          }
          r := Ok(());
        case _ => r := Ok(());
      }
    }

    method KeyOf(v: Value) returns (r: Result<string, Signal>)
      modifies this`store
      ensures Agrees(r, Key(env, old(Now()), v))
    {
      hide TextOf, Charge;
      if v.Str? { return Ok(v.s); }
      var text :- Format(v, MAX_OUTPUT_BYTES);
      var _ :- ChargeBytes(|text|);
      r := Ok(text);
    }

    method ExecIf(n: Node) returns (r: Result<(), Signal>)
      requires n.IfNode?
      modifies this
      ensures Agrees(r, Branches(env, n, 0, old(Now())))
      decreases n, 0
    {
      hide Condition, Chosen, Otherwise;
      ghost var whole := Branches(env, n, 0, Now());
      var i := 0;
      while i < |n.branches|
        invariant i <= |n.branches|
        invariant whole == Branches(env, n, i, Now())
      {
        var v :- BranchCondition(n.branches[i]);
        if Truthy(v) {
          r := BranchBody(n.branches[i]);
          return;
        }
        i := i + 1;
      }
      r := ExecElse(n.elsePart);
    }

    method BranchCondition(b: Branch) returns (r: Result<Value, Signal>)
      modifies this
      ensures Agrees(r, Condition(env, b, old(Now())))
      decreases b, 0
    {
      hide Evaluate;
      r := Value(b.cond);
    }

    method BranchBody(b: Branch) returns (r: Result<(), Signal>)
      modifies this
      ensures Agrees(r, Chosen(env, b, old(Now())))
      decreases b, 0
    {
      hide Run;
      r := RunBlock(b.body);
    }

    method ExecElse(other: ElsePart) returns (r: Result<(), Signal>)
      modifies this
      ensures Agrees(r, Otherwise(env, other, old(Now())))
      decreases other, 0
    {
      hide Run;
      if other.Else? { r := RunBlock(other.body); } else { r := Ok(()); }
    }

    method ExecForeach(n: Node) returns (r: Result<(), Signal>)
      requires n.ForeachNode?
      modifies this
      ensures Agrees(r, Foreach(env, n, old(Now())))
      decreases n, 0
    {
      hide Evaluate, Loop, IterItems, PutBack;
      var src :- Value(n.iter);
      var items := IterItems(store.heap, src, MAX_FOREACH_ITERATIONS);
      var saved := vars;
      r := RunLoop(n.varName, n.body, items);
      vars := PutBack(vars, saved, n.varName);
      if r.Ok? || r.error.Broken? { r := Ok(()); }
    }

    method RunLoop(varName: string, body: seq<Node>, items: seq<Value>) returns (r: Result<(), Signal>)
      modifies this
      ensures Agrees(r, Loop(env, varName, body, items, 0, old(Now())))
      decreases body, 1
    {
      hide Run, LoopVars, LoopInfo;
      ghost var whole := Loop(env, varName, body, items, 0, Now());
      var i := 0;
      while i < |items|
        invariant i <= |items|
        invariant whole == Loop(env, varName, body, items, i, Now())
      {
        var info := New(LoopInfo(i, |items|));
        vars := LoopVars(vars, varName, items[i], MapRef(info), i);
        var _ :- RunBlock(body);
        i := i + 1;
      }
      r := Ok(());
    }

    method ExecReturn(result: Option<Expr>) returns (r: Result<(), Signal>)
      modifies this
      ensures Agrees(r, Return(env, result, old(Now())))
      decreases result, 0
    {
      hide Evaluate;
      if result.None? { return Err(Returned(Nil)); }
      var v :- Value(result.value);
      r := Err(Returned(v));
    }

    // ---- Expressions

    method Value(e: Expr) returns (r: Result<Value, Signal>)
      modifies this
      ensures Agrees(r, Evaluate(env, e, old(Now())))
      decreases e, 2
    {
      hide Form;
      var _ :- TakeStep();
      r := ValueOfForm(e);
    }

    method ValueOfForm(e: Expr) returns (r: Result<Value, Signal>)
      modifies this
      ensures Agrees(r, Form(env, e, old(Now())))
      decreases e, 1
    {
      hide Evaluate, Interpolate, EvalRef, MakeList, MakeRange, MakeMap, EvalBinary, UnaryValue, LitValue;
      match e {
        case Literal(v) => r := Ok(LitValue(env, v));
        case Interpolated(body) => r := Interpolation(body);
        case Ref(ref) => r := Reference(ref);
        case ListExpr(items) => r := ListOf(items);
        case RangeExpr(_, _) => r := RangeOf(e);
        case MapExpr(entries) => r := MapOf(entries);
        case Unary(op, x) =>
          var v :- Value(x);
          r := Ok(UnaryValue(env, op, v));
        case Binary(_, _, _) => r := BinaryOf(e);
      }
    }

    /** A string rendered by a machine of its own over the same variables, steps and store. */
    method Interpolation(body: seq<Node>) returns (r: Result<Value, Signal>)
      modifies this
      ensures Agrees(r, Interpolate(env, body, old(Now())))
      decreases body, 1
    {
      hide Run, Charge;
      var sub := new Machine(env, vars, steps, budget, store);
      assert sub.Now() == Now().(out := "");
      var s := sub.RunBlock(body);
      vars, steps, store := sub.vars, sub.steps, sub.store;
      if s.Err? && !s.error.Stopped? { return Err(s.error); }
      var text := sub.out;
      var _ :- ChargeBytes(|text|);
      r := Ok(Str(text));
    }

    method ListOf(items: seq<Expr>) returns (r: Result<Value, Signal>)
      modifies this
      ensures Agrees(r, MakeList(env, items, old(Now())))
      decreases items, 1
    {
      hide Charge, EvaluateAll;
      var _ :- ChargeBytes(|items| * SLOT_BYTES);
      var vs :- ValuesOf(items);
      var a := New(ListCell(vs));
      r := Ok(ListRef(a));
    }

    method ValuesOf(es: seq<Expr>) returns (r: Result<seq<Value>, Signal>)
      modifies this
      ensures Agrees(r, EvaluateAll(env, es, [], old(Now())))
      decreases es, 0
    {
      hide Evaluate;
      ghost var whole := EvaluateAll(env, es, [], Now());
      var vs: seq<Value> := [];
      var i := 0;
      while i < |es|
        invariant i <= |es|
        invariant whole == EvaluateAll(env, es[i..], vs, Now())
      {
        assert es[i..][0] == es[i] && es[i..][1..] == es[i + 1..];
        var v :- Value(es[i]);
        vs := vs + [v];
        i := i + 1;
      }
      r := Ok(vs);
    }

    method RangeOf(e: Expr) returns (r: Result<Value, Signal>)
      requires e.RangeExpr?
      modifies this
      ensures Agrees(r, MakeRange(env, e, old(Now())))
      decreases e, 0
    {
      hide Evaluate, Charge, RangeItems;
      var from :- Value(e.from);
      var to :- Value(e.to);
      var a, b := ToInt(env, from), ToInt(env, to);
      if a.None? || b.None? { return Ok(Nil); }
      var items := Between(a.value, b.value, MAX_FOREACH_ITERATIONS);
      var addr := New(ListCell(items));
      var _ :- ChargeBytes(|items| * SLOT_BYTES);
      r := Ok(ListRef(addr));
    }

    /** The integers from a toward b, cut off past the limit. */
    method Between(a: int, b: int, limit: nat) returns (items: seq<Value>)
      ensures items == RangeItems(a, b, limit)
    {
      hide RangeItems;
      ghost var whole := RangeItems(a, b, limit);
      var step := if b < a then -1 else 1;
      var i := a;
      items := [];
      while true
        invariant |items| <= limit
        invariant if b < a then b <= i else i <= b
        invariant whole == items + RangeItems(i, b, limit - |items|)
        decreases limit - |items|
      {
        RangeGoesOn(items, i, b, limit - |items|);
        items := items + [Int(i)];
        if i == b || |items| > limit { return; }
        i := i + step;
      }
    }

    method MapOf(entries: seq<Entry>) returns (r: Result<Value, Signal>)
      modifies this
      ensures Agrees(r, MakeMap(env, entries, MapCell([], map[]), old(Now())))
      decreases entries, 1
    {
      hide EntryKey, EntryValue, Key, Charge;
      ghost var whole := MakeMap(env, entries, MapCell([], map[]), Now());
      var m := MapCell([], map[]);
      var i := 0;
      while i < |entries|
        invariant i <= |entries| && m.MapCell?
        invariant whole == MakeMap(env, entries[i..], m, Now())
      {
        assert entries[i..][0] == entries[i] && entries[i..][1..] == entries[i + 1..];
        var k :- KeyValue(entries[i]);
        var v :- ValValue(entries[i]);
        var key :- KeyOf(k);
        if key !in m.vals {
          var _ :- ChargeBytes(SLOT_BYTES + |key|);
        }
        m := PutCell(m, key, v);
        i := i + 1;
      }
      var a := New(m);
      r := Ok(MapRef(a));
    }

    method KeyValue(entry: Entry) returns (r: Result<Value, Signal>)
      modifies this
      ensures Agrees(r, EntryKey(env, entry, old(Now())))
      decreases entry, 0
    {
      hide Evaluate;
      r := Value(entry.key);
    }

    method ValValue(entry: Entry) returns (r: Result<Value, Signal>)
      modifies this
      ensures Agrees(r, EntryValue(env, entry, old(Now())))
      decreases entry, 0
    {
      hide Evaluate;
      r := Value(entry.val);
    }

    method BinaryOf(e: Expr) returns (r: Result<Value, Signal>)
      requires e.Binary?
      modifies this
      ensures Agrees(r, EvalBinary(env, e, old(Now())))
      decreases e, 0
    {
      hide Evaluate, BinaryValue;
      var l :- Value(e.l);
      if (e.op.And? || e.op.Or?) && Truthy(l) == e.op.Or? { return Ok(Bool(e.op.Or?)); }
      var x :- Value(e.r);
      r := Combine(e.op, l, x);
    }

    method Combine(op: BinOp, l: Value, x: Value) returns (r: Result<Value, Signal>)
      modifies this`store
      ensures Agrees(r, BinaryValue(env, op, l, x, old(Now())))
    {
      hide Arith, Equal, Compare;
      match op {
        case And | Or => r := Ok(Bool(Truthy(x)));
        case Eq => r := Ok(Bool(Equal(env, store.heap, l, x)));
        case Ne => r := Ok(Bool(!Equal(env, store.heap, l, x)));
        case Lt | Gt | Le | Ge => r := Ok(Bool(Compare(env, op, l, x)));
        case _ => r := Calculate(op, l, x);
      }
    }

    method Calculate(op: BinOp, l: Value, x: Value) returns (r: Result<Value, Signal>)
      modifies this`store
      ensures Agrees(r, Arith(env, op, l, x, old(Now())))
    {
      hide Concat, IntArith, ToFloat;
      if op.Add? && (l.Str? || x.Str?) {
        r := Join(l, x);
      } else if l.Int? && x.Int? {
        r := Ok(IntArith(op, l.i, x.i));
      } else {
        var a, b := ToFloat(env, l), ToFloat(env, x);
        r := Ok(if a.None? || b.None? then Nil else env.floats.arith(op, a.value, b.value));
      }
    }

    method Join(l: Value, x: Value) returns (r: Result<Value, Signal>)
      modifies this`store
      ensures Agrees(r, Concat(env, l, x, old(Now())))
    {
      hide TextOf, Charge;
      var ls :- Format(l, MAX_OUTPUT_BYTES);
      var rs :- Format(x, MAX_OUTPUT_BYTES - |ls|);
      var _ :- ChargeBytes(|ls| + |rs|);
      r := Ok(Str(ls + rs));
    }

    // ---- References

    method Reference(ref: RefExpr) returns (r: Result<Value, Signal>)
      modifies this
      ensures Agrees(r, EvalRef(env, ref, old(Now())))
      decreases ref, 0, 1
    {
      hide Resolve;
      r := ResolveChain(ref, |ref.chain|);
    }

    method ResolveChain(ref: RefExpr, upto: nat) returns (r: Result<Value, Signal>)
      requires upto <= |ref.chain|
      modifies this
      ensures Agrees(r, Resolve(env, ref, upto, old(Now())))
      decreases ref, 0, 0
    {
      hide Access;
      if ref.name !in vars { return Ok(Nil); }
      var cur := vars[ref.name];
      ghost var whole := Steps(env, ref.chain, 0, upto, cur, Now());
      var i := 0;
      while i < upto
        invariant i <= upto
        invariant whole == Steps(env, ref.chain, i, upto, cur, Now())
      {
        if cur.Nil? { return Ok(Nil); }
        cur :- AccessStep(cur, ref.chain[i]);
        i := i + 1;
      }
      r := Ok(cur);
    }

    method AccessStep(cur: Value, a: Accessor) returns (r: Result<Value, Signal>)
      modifies this
      ensures Agrees(r, Access(env, cur, a, old(Now())))
      decreases a, 0
    {
      hide Evaluate, EvaluateAll, CallMethod, IndexInto, PropertyOf;
      match a {
        case Property(name) => r := Ok(PropertyOf(env, store.heap, cur, name));
        case Index(index) =>
          var idx :- Value(index);
          r := Ok(IndexInto(env, store.heap, cur, idx));
        case Method(name, args) =>
          var vs :- ValuesOf(args);
          r := Invoke(cur, name, vs);
      }
    }

    method Invoke(v: Value, name: string, args: seq<Value>) returns (r: Result<Value, Signal>)
      modifies this`store
      ensures Agrees(r, CallMethod(env, v, name, args, old(Now())))
    {
      hide TextOf, Charge, Equal, CallCollection;
      if name == "toString" && args == [] {
        var text :- Format(v, MAX_OUTPUT_BYTES);
        var _ :- ChargeBytes(|text|);
        return Ok(Str(text));
      }
      if name == "equals" && |args| == 1 { return Ok(Bool(Equal(env, store.heap, v, args[0]))); }
      if v.Str? || v.Host? {
        var h := env.call(store, v, name, args);
        store := h.store;
        match h.result {
          case Ok(x) => r := Ok(x);
          case Err(HostMemory) => r := Err(MemoryLimit);
          case Err(HostOutput) => r := Err(OutputOverflow);
          case Err(HostDepth) => r := Err(DepthOverflow);
          case Err(HostOther(msg)) => r := Err(Failed(msg));
        }
        return;
      }
      var (s, x) := CallCollection(env, store, v, name, args);
      store := s;
      r := x;
    }
  }

  /** One more integer, and the rest of the range after it. */
  lemma RangeGoesOn(items: seq<Value>, a: int, b: int, limit: nat)
    ensures items + RangeItems(a, b, limit) ==
      if a == b || limit == 0 then items + [Int(a)]
      else items + [Int(a)] + RangeItems(if b < a then a - 1 else a + 1, b, limit - 1)
  {
    if a != b && limit > 0 {
      var rest := RangeItems(if b < a then a - 1 else a + 1, b, limit - 1);
      assert RangeItems(a, b, limit) == [Int(a)] + rest;
      hide RangeItems;
      assert items + ([Int(a)] + rest) == items + [Int(a)] + rest;
    }
  }

  /** Renders a template over vars within a step budget. */
  method Render(env: Env, body: seq<Node>, vars: map<string, Value>, store: Store, maxSteps: int)
    returns (r: Result<Rendered, Signal>, ghost end: State)
    ensures var o := Run(env, body, State(vars, "", 0, Some(StepLimit(maxSteps)), store));
            r == RenderResult(o) && end == o.st
  {
    hide Run;
    var m := new Machine(env, vars, 0, Some(StepLimit(maxSteps)), store);
    var s := m.RunBlock(body);
    end := m.Now();
    match s {
      case Ok(_) => r := Ok(Rendered(m.out, false, Nil));
      case Err(Stopped) => r := Ok(Rendered(m.out, false, Nil));
      case Err(Broken) => r := Ok(Rendered(m.out, false, Nil));
      case Err(Returned(v)) => r := Ok(Rendered(m.out, true, v));
      case Err(signal) => r := Err(signal);
    }
  }
}
