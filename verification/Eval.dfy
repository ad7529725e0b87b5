/**
 The evaluator as functions from a state to an outcome (internal/vtl/eval.go). An outcome that
 is not a value carries the control signal or error and the state it arose in.
 */
module Eval {
  import opened Common
  import opened Ast
  import opened Values
  import opened Format
  import opened Limits
  import opened Runtime
  import opened Methods

  /** The nodes of a block in order, a step for each. */
  function Run(env: Env, body: seq<Node>, st: State): (o: Outcome<()>)
    ensures Sane(st, o)
    decreases body, 0
  {
    if body == [] then Ran((), st)
    else
      var (_, st1) :- Step(st);
      var (_, st2) :- Exec(env, body[0], st1);
      Run(env, body[1..], st2)
  }

  function Exec(env: Env, n: Node, st: State): (o: Outcome<()>)
    ensures Sane(st, o)
    decreases n, 1
  {
    match n
    case Text(parts) => WriteAll(parts, st)
    case RefNode(ref, _) => Print(env, ref, st)
    case SetNode(_, _) => Assign(env, n, st)
    case IfNode(_, _) => Branches(env, n, 0, st)
    case ForeachNode(_, _, _) => Foreach(env, n, st)
    case BreakNode => Raised(Broken, st)
    case StopNode => Raised(Stopped, st)
    case ReturnNode(result) => Return(env, result, st)
  }

  function WriteAll(parts: seq<string>, st: State): (o: Outcome<()>)
    ensures Sane(st, o)
    decreases |parts|
  {
    if parts == [] then Ran((), st)
    else
      var (_, st1) :- Write(st, parts[0]);
      WriteAll(parts[1..], st1)
  }

  /** A reference in text: its value is printed within what is left of the output. */
  function Print(env: Env, ref: RefExpr, st: State): (o: Outcome<()>)
    ensures Sane(st, o)
    decreases ref, 1
  {
    var (v, st1) :- EvalRef(env, ref, st);
    var (text, st2) :- TextOf(env, st1, v, MAX_OUTPUT_BYTES - |st1.out|);
    Write(st2, text)
  }

  function Assign(env: Env, n: Node, st: State): (o: Outcome<()>)
    requires n.SetNode?
    ensures Sane(st, o)
    decreases n, 0
  {
    var (v, st1) :- Evaluate(env, n.value, st);
    if n.target.chain == [] then Ran((), st1.(vars := st1.vars[n.target.name := v]))
    else AssignThrough(env, n.target, v, st1)
  }

  /** Stores v through the last step of a reference. */
  function AssignThrough(env: Env, target: RefExpr, v: Value, st: State): (o: Outcome<()>)
    requires target.chain != []
    ensures Sane(st, o)
    decreases target, 1
  {
    var n := |target.chain| - 1;
    var (parent, st1) :- Resolve(env, target, n, st);
    StoreAt(env, target.chain[n], parent, v, st1)
  }

  function StoreAt(env: Env, a: Accessor, parent: Value, v: Value, st: State): (o: Outcome<()>)
    ensures Sane(st, o)
    decreases a, 0
  {
    match a
    case Property(name) => if parent.MapRef? then PutEntry(env, st, parent.addr, name, v) else Ran((), st)
    case Index(index) =>
      var (idx, st1) :- Evaluate(env, index, st);
      SetIndex(env, st1, parent, idx, v)
    case Method(_, _) => Raised(Failed("cannot #set a method call"), st)
  }

  /** Stores an entry of a map in the store, charging a new one. */
  function PutEntry(env: Env, st: State, addr: nat, key: string, v: Value): (o: Outcome<()>)
    ensures Sane(st, o)
  {
    var c := MapAt(st.store.heap, addr);
    var (_, st1) :- if key in c.vals then Ran((), st) else Charge(env, st, SLOT_BYTES + |key|);
    Ran((), st1.(store := st1.store.(heap := SetCell(st1.store.heap, addr, PutCell(c, key, v)))))
  }

  function SetIndex(env: Env, st: State, target: Value, idx: Value, v: Value): (o: Outcome<()>)
    ensures Sane(st, o)
  {
    match target
    case MapRef(a) =>
      var (key, st1) :- Key(env, st, idx);
      PutEntry(env, st1, a, key, v)
    case ListRef(a) =>
      var i := ToInt(env, idx);
      var items := ListAt(st.store.heap, a);
      if i.Some? && 0 <= i.value < |items| then
        Ran((), st.(store := st.store.(heap := SetItems(st.store.heap, a, items[i.value := v]))))
      else Ran((), st)
    case _ => Ran((), st)
  }

  /** A value used as a map key. */
  function Key(env: Env, st: State, v: Value): (o: Outcome<string>)
    ensures Sane(st, o) && o.st.steps == st.steps
  {
    if v.Str? then Ran(v.s, st)
    else
      var (text, st1) :- TextOf(env, st, v, MAX_OUTPUT_BYTES);
      var (_, st2) :- Charge(env, st1, |text|);
      Ran(text, st2)
  }

  /** The body of the first branch from the i-th on whose condition holds, or the #else body. */
  function Branches(env: Env, n: Node, i: nat, st: State): (o: Outcome<()>)
    requires n.IfNode? && i <= |n.branches|
    ensures Sane(st, o)
    decreases n, 0, |n.branches| - i
  {
    if i == |n.branches| then
      Otherwise(env, n.elsePart, st)
    else
      var (v, st1) :- Condition(env, n.branches[i], st);
      if Truthy(v) then Chosen(env, n.branches[i], st1) else Branches(env, n, i + 1, st1)
  }

  function Otherwise(env: Env, other: ElsePart, st: State): (o: Outcome<()>)
    ensures Sane(st, o)
    decreases other, 0
  {
    match other
    case Else(body) => Run(env, body, st)
    case NoElse => Ran((), st)
  }

  function Condition(env: Env, b: Branch, st: State): (o: Outcome<Value>)
    ensures Sane(st, o)
    decreases b, 0
  {
    Evaluate(env, b.cond, st)
  }

  function Chosen(env: Env, b: Branch, st: State): (o: Outcome<()>)
    ensures Sane(st, o)
    decreases b, 0
  {
    Run(env, b.body, st)
  }

  /** A loop over at most the permitted number of items; its three variables are put back after it. */
  function Foreach(env: Env, n: Node, st: State): (o: Outcome<()>)
    requires n.ForeachNode?
    ensures Sane(st, o)
    decreases n, 0
  {
    var (src, st1) :- Evaluate(env, n.iter, st);
    var items := IterItems(st1.store.heap, src, MAX_FOREACH_ITERATIONS);
    var r := Loop(env, n.varName, n.body, items, 0, st1);
    var back := r.st.(vars := PutBack(r.st.vars, st1.vars, n.varName));
    match r
    case Ran(_, _) => Ran((), back)
    case Raised(signal, _) => if signal.Broken? then Ran((), back) else Raised(signal, back)
  }

  /** The first items of a list, or values of a map. */
  function IterItems(h: Heap, v: Value, limit: nat): seq<Value> {
    var items := Children(h, v);
    if |items| <= limit then items else items[..limit]
  }

  /** The values three variables had in saved, put back into vars. */
  function PutBack(vars: map<string, Value>, saved: map<string, Value>, varName: string): map<string, Value> {
    RestoreVar(RestoreVar(RestoreVar(vars, saved, "velocityCount"), saved, "foreach"), saved, varName)
  }

  function RestoreVar(vars: map<string, Value>, saved: map<string, Value>, name: string): map<string, Value> {
    if name in saved then vars[name := saved[name]] else vars - {name}
  }

  /** The $foreach object of iteration i of n. */
  function LoopInfo(i: nat, n: nat): Cell {
    MapCell(["index", "count", "hasNext", "first", "last"],
            map["index" := Int(i), "count" := Int(i + 1), "hasNext" := Bool(i + 1 < n),
                "first" := Bool(i == 0), "last" := Bool(i + 1 == n)])
  }

  function LoopVars(vars: map<string, Value>, varName: string, item: Value, info: Value, i: nat): map<string, Value> {
    vars[varName := item]["foreach" := info]["velocityCount" := Int(i + 1)]
  }

  function Loop(env: Env, varName: string, body: seq<Node>, items: seq<Value>, i: nat, st: State): (o: Outcome<()>)
    requires i <= |items|
    ensures Sane(st, o)
    decreases body, 1, |items| - i
  {
    if i == |items| then Ran((), st)
    else
      var info := MapRef(|st.store.heap|);
      var st1 := st.(store := Alloc(st.store, LoopInfo(i, |items|)),
                     vars := LoopVars(st.vars, varName, items[i], info, i));
      var (_, st2) :- Run(env, body, st1);
      Loop(env, varName, body, items, i + 1, st2)
  }

  function Return(env: Env, result: Option<Expr>, st: State): (o: Outcome<()>)
    ensures Sane(st, o)
    decreases result, 0
  {
    match result
    case None => Raised(Returned(Nil), st)
    case Some(e) =>
      var (v, st1) :- Evaluate(env, e, st);
      Raised(Returned(v), st1)
  }

  // ---- Expressions

  /** One expression, a step and then its form. */
  function Evaluate(env: Env, e: Expr, st: State): (o: Outcome<Value>)
    ensures Sane(st, o)
    decreases e, 2
  {
    var (_, st1) :- Step(st);
    Form(env, e, st1)
  }

  function Form(env: Env, e: Expr, st: State): (o: Outcome<Value>)
    ensures Sane(st, o)
    decreases e, 1
  {
    match e
    case Literal(v) => Ran(LitValue(env, v), st)
    case Interpolated(body) => Interpolate(env, body, st)
    case Ref(ref) => EvalRef(env, ref, st)
    case ListExpr(items) => MakeList(env, items, st)
    case RangeExpr(_, _) => MakeRange(env, e, st)
    case MapExpr(entries) => MakeMap(env, entries, MapCell([], map[]), st)
    case Unary(op, x) =>
      var (v, st1) :- Evaluate(env, x, st);
      Ran(UnaryValue(env, op, v), st1)
    case Binary(_, _, _) => EvalBinary(env, e, st)
  }

  function LitValue(env: Env, v: Lit): Value {
    match v
    case LNull => Nil
    case LBool(b) => Bool(b)
    case LInt(i) => Int(i)
    case LFloat(text) => Float(env.floatOf(text))
    case LStr(s) => Str(s)
  }

  /** A string rendered as a template with output of its own; #stop ends only the string. */
  function Interpolate(env: Env, body: seq<Node>, st: State): (o: Outcome<Value>)
    ensures Sane(st, o)
    decreases body, 1
  {
    var r := Run(env, body, st.(out := ""));
    var st1 := r.st.(out := st.out);
    if r.Raised? && !r.signal.Stopped? then Raised(r.signal, st1)
    else
      var (_, st2) :- Charge(env, st1, |r.st.out|);
      Ran(Str(r.st.out), st2)
  }

  function MakeList(env: Env, items: seq<Expr>, st: State): (o: Outcome<Value>)
    ensures Sane(st, o)
    decreases items, 1
  {
    var (_, st1) :- Charge(env, st, |items| * SLOT_BYTES);
    var (vs, st2) :- EvaluateAll(env, items, [], st1);
    Ran(ListRef(|st2.store.heap|), st2.(store := Alloc(st2.store, ListCell(vs))))
  }

  /** The values of expressions from left to right, after those of done. */
  function EvaluateAll(env: Env, es: seq<Expr>, done: seq<Value>, st: State): (o: Outcome<seq<Value>>)
    ensures Sane(st, o)
    ensures o.Ran? ==> |o.value| == |done| + |es|
    decreases es, 0
  {
    if es == [] then Ran(done, st)
    else
      var (v, st1) :- Evaluate(env, es[0], st);
      EvaluateAll(env, es[1..], done + [v], st1)
  }

  function MakeRange(env: Env, e: Expr, st: State): (o: Outcome<Value>)
    requires e.RangeExpr?
    ensures Sane(st, o)
    decreases e, 0
  {
    var (f, st1) :- Evaluate(env, e.from, st);
    var (t, st2) :- Evaluate(env, e.to, st1);
    var (a, b) := (ToInt(env, f), ToInt(env, t));
    if a.None? || b.None? then Ran(Nil, st2)
    else
      var items := RangeItems(a.value, b.value, MAX_FOREACH_ITERATIONS);
      var st3 := st2.(store := Alloc(st2.store, ListCell(items)));
      var (_, st4) :- Charge(env, st3, |items| * SLOT_BYTES);
      Ran(ListRef(|st2.store.heap|), st4)
  }

  /** a, a step toward b, and so on to b, at most limit of them after the first. */
  function RangeItems(a: int, b: int, limit: nat): (items: seq<Value>)
    ensures 1 <= |items| <= limit + 1
    ensures items[0] == Int(a)
    decreases limit
  {
    if a == b || limit == 0 then [Int(a)] else [Int(a)] + RangeItems(if b < a then a - 1 else a + 1, b, limit - 1)
  }

  function MakeMap(env: Env, entries: seq<Entry>, c: Cell, st: State): (o: Outcome<Value>)
    requires c.MapCell?
    ensures Sane(st, o)
    decreases entries, 1
  {
    if entries == [] then Ran(MapRef(|st.store.heap|), st.(store := Alloc(st.store, c)))
    else
      var (k, st1) :- EntryKey(env, entries[0], st);
      var (v, st2) :- EntryValue(env, entries[0], st1);
      var (key, st3) :- Key(env, st2, k);
      var (_, st4) :- if key in c.vals then Ran((), st3) else Charge(env, st3, SLOT_BYTES + |key|);
      MakeMap(env, entries[1..], PutCell(c, key, v), st4)
  }

  function EntryKey(env: Env, entry: Entry, st: State): (o: Outcome<Value>)
    ensures Sane(st, o)
    decreases entry, 0
  {
    Evaluate(env, entry.key, st)
  }

  function EntryValue(env: Env, entry: Entry, st: State): (o: Outcome<Value>)
    ensures Sane(st, o)
    decreases entry, 0
  {
    Evaluate(env, entry.val, st)
  }

  function UnaryValue(env: Env, op: UnOp, v: Value): Value {
    if op.Not? then Bool(!Truthy(v))
    else
      match v
      case Int(i) => Int(Wrap64(-i))
      case Float(bits) => Float(env.floats.neg(bits))
      case _ => Nil
  }

  /** && and || look at the right side only when the left does not decide. */
  function EvalBinary(env: Env, e: Expr, st: State): (o: Outcome<Value>)
    requires e.Binary?
    ensures Sane(st, o)
    decreases e, 0
  {
    var (lv, st1) :- Evaluate(env, e.l, st);
    if (e.op.And? || e.op.Or?) && Truthy(lv) == e.op.Or? then Ran(Bool(e.op.Or?), st1)
    else
      var (rv, st2) :- Evaluate(env, e.r, st1);
      BinaryValue(env, e.op, lv, rv, st2)
  }

  function BinaryValue(env: Env, op: BinOp, l: Value, r: Value, st: State): (o: Outcome<Value>)
    ensures Sane(st, o)
  {
    match op
    case And | Or => Ran(Bool(Truthy(r)), st)
    case Eq => Ran(Bool(Equal(env, st.store.heap, l, r)), st)
    case Ne => Ran(Bool(!Equal(env, st.store.heap, l, r)), st)
    case Lt | Gt | Le | Ge => Ran(Bool(Compare(env, op, l, r)), st)
    case _ => Arith(env, op, l, r, st)
  }

  function Arith(env: Env, op: BinOp, l: Value, r: Value, st: State): (o: Outcome<Value>)
    ensures Sane(st, o)
  {
    if op.Add? && (l.Str? || r.Str?) then Concat(env, l, r, st)
    else if l.Int? && r.Int? then Ran(IntArith(op, l.i, r.i), st)
    else
      var (a, b) := (ToFloat(env, l), ToFloat(env, r));
      if a.None? || b.None? then Ran(Nil, st) else Ran(env.floats.arith(op, a.value, b.value), st)
  }

  function Concat(env: Env, l: Value, r: Value, st: State): (o: Outcome<Value>)
    ensures Sane(st, o)
  {
    var (ls, st1) :- TextOf(env, st, l, MAX_OUTPUT_BYTES);
    var (rs, st2) :- TextOf(env, st1, r, MAX_OUTPUT_BYTES - |ls|);
    var (_, st3) :- Charge(env, st2, |ls| + |rs|);
    Ran(Str(ls + rs), st3)
  }

  // ---- References

  function EvalRef(env: Env, ref: RefExpr, st: State): (o: Outcome<Value>)
    ensures Sane(st, o)
    decreases ref, 0, 1
  {
    Resolve(env, ref, |ref.chain|, st)
  }

  /** The value of a reference with the first upto steps of its chain. */
  function Resolve(env: Env, ref: RefExpr, upto: nat, st: State): (o: Outcome<Value>)
    requires upto <= |ref.chain|
    ensures Sane(st, o)
    decreases ref, 0, 0
  {
    if ref.name !in st.vars then Ran(Nil, st) else Steps(env, ref.chain, 0, upto, st.vars[ref.name], st)
  }

  function Steps(env: Env, chain: seq<Accessor>, i: nat, upto: nat, cur: Value, st: State): (o: Outcome<Value>)
    requires i <= upto <= |chain|
    ensures Sane(st, o)
    decreases chain, upto - i
  {
    if i == upto || cur.Nil? then Ran(cur, st)
    else
      var (v, st1) :- Access(env, cur, chain[i], st);
      Steps(env, chain, i + 1, upto, v, st1)
  }

  function Access(env: Env, cur: Value, a: Accessor, st: State): (o: Outcome<Value>)
    ensures Sane(st, o)
    decreases a, 0
  {
    match a
    case Property(name) => Ran(PropertyOf(env, st.store.heap, cur, name), st)
    case Index(index) =>
      var (idx, st1) :- Evaluate(env, index, st);
      Ran(IndexInto(env, st1.store.heap, cur, idx), st1)
    case Method(name, args) =>
      var (vs, st1) :- EvaluateAll(env, args, [], st);
      CallMethod(env, cur, name, vs, st1)
  }

  function PropertyOf(env: Env, h: Heap, v: Value, name: string): Value {
    match v
    case MapRef(a) => Get(h, a, name)
    case Host(id) => env.hostGet(id, name)
    case Str(s) => if name == "empty" then Bool(s == "") else Nil
    case ListRef(a) => if name == "empty" then Bool(ListAt(h, a) == []) else Nil
    case _ => Nil
  }

  function IndexInto(env: Env, h: Heap, v: Value, idx: Value): Value {
    match v
    case ListRef(a) =>
      var i := ToInt(env, idx);
      if i.Some? && 0 <= i.value < |ListAt(h, a)| then ListAt(h, a)[i.value] else Nil
    case MapRef(a) => Get(h, a, Stringify(env, h, idx))
    case Host(id) => env.hostGet(id, Stringify(env, h, idx))
    case _ => Nil
  }

  function CallMethod(env: Env, v: Value, name: string, args: seq<Value>, st: State): (o: Outcome<Value>)
    ensures Sane(st, o)
  {
    if name == "toString" && args == [] then
      var (text, st1) :- TextOf(env, st, v, MAX_OUTPUT_BYTES);
      var (_, st2) :- Charge(env, st1, |text|);
      Ran(Str(text), st2)
    else if name == "equals" && |args| == 1 then Ran(Bool(Equal(env, st.store.heap, v, args[0])), st)
    else if v.Str? || v.Host? then
      var r := env.call(st.store, v, name, args);
      HostOutcome(r.result, st.(store := r.store))
    else
      var (s, r) := CallCollection(env, st.store, v, name, args);
      match r
      case Ok(value) => Ran(value, st.(store := s))
      case Err(signal) => Raised(signal, st.(store := s))
  }

  function HostOutcome(r: Result<Value, HostError>, st: State): (o: Outcome<Value>)
    ensures Sane(st, o)
  {
    match r
    case Ok(v) => Ran(v, st)
    case Err(HostMemory) => Raised(MemoryLimit, st)
    case Err(HostOutput) => Raised(OutputOverflow, st)
    case Err(HostDepth) => Raised(DepthOverflow, st)
    case Err(HostOther(msg)) => Raised(Failed(msg), st)
  }

  // ---- A render

  /** What a render returns: its output and #return value, or an error. */
  datatype Rendered = Rendered(output: string, returned: bool, value: Value)

  const DEFAULT_MAX_STEPS: nat := 1_000_000

  /** A non-positive option selects the default budget. */
  function StepLimit(maxSteps: int): nat { if maxSteps <= 0 then DEFAULT_MAX_STEPS else maxSteps }

  function RenderResult(r: Outcome<()>): Result<Rendered, Signal> {
    match r
    case Ran(_, st) => Ok(Rendered(st.out, false, Nil))
    case Raised(Returned(v), st) => Ok(Rendered(st.out, true, v))
    case Raised(signal, st) =>
      if signal.Stopped? || signal.Broken? then Ok(Rendered(st.out, false, Nil)) else Err(signal)
  }
}
