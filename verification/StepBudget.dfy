/**
 The step budget cuts a render off and does nothing else: with budget b, a render does what it
 would do without a budget if that takes at most b steps, and otherwise fails at step b + 1.
 */
module StepBudgets {
  import opened Common
  import opened Ast
  import opened Values
  import opened Format
  import opened Limits
  import opened Runtime
  import opened Methods
  import opened Eval

  /** The state with a budget of b steps. */
  function Limit(st: State, b: nat): State { st.(budget := Some(b)) }

  function LimitOutcome<T>(u: Outcome<T>, b: nat): Outcome<T> {
    match u
    case Ran(v, st) => Ran(v, Limit(st, b))
    case Raised(signal, st) => Raised(signal, Limit(st, b))
  }

  /** l is what budget b makes of the unlimited outcome u. */
  ghost predicate Tracks<T(!new)>(u: Outcome<T>, l: Outcome<T>, b: nat) {
    if u.st.steps <= b then l == LimitOutcome(u, b)
    else l.Raised? && l.signal == StepBudget && l.st.steps == b + 1
  }

  /** Where a run starts: no budget yet, and at most b steps taken. */
  predicate Starts(st: State, b: nat) { st.budget.None? && st.steps <= b }

  // ---- Parts that take no steps

  lemma {:induction false} WriteAllTracks(parts: seq<string>, st: State, b: nat)
    requires Starts(st, b)
    ensures Tracks(WriteAll(parts, st), WriteAll(parts, Limit(st, b)), b)
    decreases |parts|
  {
    if parts != [] {
      var w := Write(st, parts[0]);
      if w.Ran? { WriteAllTracks(parts[1..], w.st, b); }
    }
  }

  lemma TextTracks(env: Env, st: State, v: Value, limit: int, b: nat)
    requires Starts(st, b)
    ensures Tracks(TextOf(env, st, v, limit), TextOf(env, Limit(st, b), v, limit), b)
  {
    hide FormatText;
  }

  lemma ChargeTracks(env: Env, st: State, n: nat, b: nat)
    requires Starts(st, b)
    ensures Tracks(Charge(env, st, n), Charge(env, Limit(st, b), n), b)
  {
  }

  lemma KeyTracks(env: Env, st: State, v: Value, b: nat)
    requires Starts(st, b)
    ensures Tracks(Key(env, st, v), Key(env, Limit(st, b), v), b)
  {
    hide FormatText;
  }

  lemma PutEntryTracks(env: Env, st: State, addr: nat, key: string, v: Value, b: nat)
    requires Starts(st, b)
    ensures Tracks(PutEntry(env, st, addr, key, v), PutEntry(env, Limit(st, b), addr, key, v), b)
  {
    hide MapAt, SetCell, PutCell;
  }

  lemma SetIndexTracks(env: Env, st: State, target: Value, idx: Value, v: Value, b: nat)
    requires Starts(st, b)
    ensures Tracks(SetIndex(env, st, target, idx, v), SetIndex(env, Limit(st, b), target, idx, v), b)
  {
    hide Key, PutEntry, ToInt, SetItems;
    if target.MapRef? {
      KeyTracks(env, st, idx, b);
      var k := Key(env, st, idx);
      if k.Ran? { PutEntryTracks(env, k.st, target.addr, k.value, v, b); }
    }
  }

  lemma ConcatTracks(env: Env, l: Value, r: Value, st: State, b: nat)
    requires Starts(st, b)
    ensures Tracks(Concat(env, l, r, st), Concat(env, l, r, Limit(st, b)), b)
  {
    hide FormatText;
  }

  lemma ArithTracks(env: Env, op: BinOp, l: Value, r: Value, st: State, b: nat)
    requires Starts(st, b)
    ensures Tracks(Arith(env, op, l, r, st), Arith(env, op, l, r, Limit(st, b)), b)
  {
    hide Concat, IntArith, ToFloat;
    ConcatTracks(env, l, r, st, b);
  }

  lemma BinaryValueTracks(env: Env, op: BinOp, l: Value, r: Value, st: State, b: nat)
    requires Starts(st, b)
    ensures Tracks(BinaryValue(env, op, l, r, st), BinaryValue(env, op, l, r, Limit(st, b)), b)
  {
    hide Arith, Equal, Compare;
    ArithTracks(env, op, l, r, st, b);
  }

  lemma CallMethodTracks(env: Env, v: Value, name: string, args: seq<Value>, st: State, b: nat)
    requires Starts(st, b)
    ensures Tracks(CallMethod(env, v, name, args, st), CallMethod(env, v, name, args, Limit(st, b)), b)
  {
    hide FormatText, Equal, CallCollection;
  }

  // ---- Nodes

  lemma StepTracks(st: State, b: nat)
    requires Starts(st, b)
    ensures Tracks(Step(st), Step(Limit(st, b)), b) && Step(st).Ran?
    ensures Step(st).st.steps <= b ==> Starts(Step(st).st, b)
  {
  }

  lemma {:induction false} RunTracks(env: Env, body: seq<Node>, st: State, b: nat)
    requires Starts(st, b)
    ensures Tracks(Run(env, body, st), Run(env, body, Limit(st, b)), b)
    decreases body, 0
  {
    hide Exec;
    if body != [] {
      StepTracks(st, b);
      var st1 := Step(st).st;
      if st1.steps <= b {
        ExecTracks(env, body[0], st1, b);
        var r := Exec(env, body[0], st1);
        if r.Ran? && r.st.steps <= b { RunTracks(env, body[1..], r.st, b); }
      }
    }
  }

  lemma {:induction false} ExecTracks(env: Env, n: Node, st: State, b: nat)
    requires Starts(st, b)
    ensures Tracks(Exec(env, n, st), Exec(env, n, Limit(st, b)), b)
    decreases n, 1
  {
    hide WriteAll, Print, Assign, Branches, Foreach, Return;
    match n
    case Text(parts) => WriteAllTracks(parts, st, b);
    case RefNode(ref, _) => PrintTracks(env, ref, st, b);
    case SetNode(_, _) => AssignTracks(env, n, st, b);
    case IfNode(_, _) => BranchesTracks(env, n, 0, st, b);
    case ForeachNode(_, _, _) => ForeachTracks(env, n, st, b);
    case ReturnNode(result) => ReturnTracks(env, result, st, b);
    case _ =>
  }

  lemma {:induction false} PrintTracks(env: Env, ref: RefExpr, st: State, b: nat)
    requires Starts(st, b)
    ensures Tracks(Print(env, ref, st), Print(env, ref, Limit(st, b)), b)
    decreases ref, 1
  {
    hide EvalRef, TextOf;
    EvalRefTracks(env, ref, st, b);
    var r := EvalRef(env, ref, st);
    if r.Ran? && r.st.steps <= b {
      TextTracks(env, r.st, r.value, MAX_OUTPUT_BYTES - |r.st.out|, b);
    }
  }

  lemma {:induction false} AssignTracks(env: Env, n: Node, st: State, b: nat)
    requires n.SetNode? && Starts(st, b)
    ensures Tracks(Assign(env, n, st), Assign(env, n, Limit(st, b)), b)
    decreases n, 0
  {
    hide Evaluate, AssignThrough;
    EvaluateTracks(env, n.value, st, b);
    var r := Evaluate(env, n.value, st);
    if r.Ran? && r.st.steps <= b && n.target.chain != [] { AssignThroughTracks(env, n.target, r.value, r.st, b); }
  }

  lemma {:induction false} AssignThroughTracks(env: Env, target: RefExpr, v: Value, st: State, b: nat)
    requires target.chain != [] && Starts(st, b)
    ensures Tracks(AssignThrough(env, target, v, st), AssignThrough(env, target, v, Limit(st, b)), b)
    decreases target, 1
  {
    hide Resolve, StoreAt;
    var n := |target.chain| - 1;
    ResolveTracks(env, target, n, st, b);
    var r := Resolve(env, target, n, st);
    if r.Ran? && r.st.steps <= b { StoreAtTracks(env, target.chain[n], r.value, v, r.st, b); }
  }

  lemma {:induction false} StoreAtTracks(env: Env, a: Accessor, parent: Value, v: Value, st: State, b: nat)
    requires Starts(st, b)
    ensures Tracks(StoreAt(env, a, parent, v, st), StoreAt(env, a, parent, v, Limit(st, b)), b)
    decreases a, 0
  {
    hide Evaluate, SetIndex, PutEntry;
    match a
    case Property(name) => if parent.MapRef? { PutEntryTracks(env, st, parent.addr, name, v, b); }
    case Index(index) =>
      EvaluateTracks(env, index, st, b);
      var r := Evaluate(env, index, st);
      if r.Ran? && r.st.steps <= b { SetIndexTracks(env, r.st, parent, r.value, v, b); }
    case Method(_, _) =>
  }

  lemma {:induction false} BranchesTracks(env: Env, n: Node, i: nat, st: State, b: nat)
    requires n.IfNode? && i <= |n.branches| && Starts(st, b)
    ensures Tracks(Branches(env, n, i, st), Branches(env, n, i, Limit(st, b)), b)
    decreases n, 0, |n.branches| - i
  {
    hide Condition, Chosen, Otherwise;
    if i == |n.branches| {
      OtherwiseTracks(env, n.elsePart, st, b);
    } else {
      ConditionTracks(env, n.branches[i], st, b);
      var r := Condition(env, n.branches[i], st);
      if r.Ran? && r.st.steps <= b {
        if Truthy(r.value) {
          ChosenTracks(env, n.branches[i], r.st, b);
        } else {
          BranchesTracks(env, n, i + 1, r.st, b);
        }
      }
    }
  }

  lemma {:induction false} OtherwiseTracks(env: Env, other: ElsePart, st: State, b: nat)
    requires Starts(st, b)
    ensures Tracks(Otherwise(env, other, st), Otherwise(env, other, Limit(st, b)), b)
    decreases other, 0
  {
    hide Run;
    if other.Else? { RunTracks(env, other.body, st, b); }
  }

  lemma {:induction false} ConditionTracks(env: Env, branch: Branch, st: State, b: nat)
    requires Starts(st, b)
    ensures Tracks(Condition(env, branch, st), Condition(env, branch, Limit(st, b)), b)
    decreases branch, 0
  {
    hide Evaluate;
    EvaluateTracks(env, branch.cond, st, b);
  }

  lemma {:induction false} ChosenTracks(env: Env, branch: Branch, st: State, b: nat)
    requires Starts(st, b)
    ensures Tracks(Chosen(env, branch, st), Chosen(env, branch, Limit(st, b)), b)
    decreases branch, 0
  {
    hide Run;
    RunTracks(env, branch.body, st, b);
  }

  lemma {:induction false} ForeachTracks(env: Env, n: Node, st: State, b: nat)
    requires n.ForeachNode? && Starts(st, b)
    ensures Tracks(Foreach(env, n, st), Foreach(env, n, Limit(st, b)), b)
    decreases n, 0
  {
    hide Evaluate, Loop, IterItems, PutBack;
    EvaluateTracks(env, n.iter, st, b);
    var r := Evaluate(env, n.iter, st);
    if r.Ran? && r.st.steps <= b {
      var items := IterItems(r.st.store.heap, r.value, MAX_FOREACH_ITERATIONS);
      LoopTracks(env, n.varName, n.body, items, 0, r.st, b);
    }
  }

  lemma {:induction false} LoopTracks(env: Env, varName: string, body: seq<Node>, items: seq<Value>, i: nat,
                                      st: State, b: nat)
    requires i <= |items| && Starts(st, b)
    ensures Tracks(Loop(env, varName, body, items, i, st), Loop(env, varName, body, items, i, Limit(st, b)), b)
    decreases body, 1, |items| - i
  {
    hide Run, LoopVars, LoopInfo;
    if i < |items| {
      var info := MapRef(|st.store.heap|);
      var st1 := st.(store := Alloc(st.store, LoopInfo(i, |items|)),
                     vars := LoopVars(st.vars, varName, items[i], info, i));
      RunTracks(env, body, st1, b);
      var r := Run(env, body, st1);
      if r.Ran? && r.st.steps <= b { LoopTracks(env, varName, body, items, i + 1, r.st, b); }
    }
  }

  lemma {:induction false} ReturnTracks(env: Env, result: Option<Expr>, st: State, b: nat)
    requires Starts(st, b)
    ensures Tracks(Return(env, result, st), Return(env, result, Limit(st, b)), b)
    decreases result, 0
  {
    hide Evaluate;
    if result.Some? { EvaluateTracks(env, result.value, st, b); }
  }

  // ---- Expressions

  lemma {:induction false} EvaluateTracks(env: Env, e: Expr, st: State, b: nat)
    requires Starts(st, b)
    ensures Tracks(Evaluate(env, e, st), Evaluate(env, e, Limit(st, b)), b)
    decreases e, 2
  {
    hide Form;
    StepTracks(st, b);
    var st1 := Step(st).st;
    if st1.steps <= b { FormTracks(env, e, st1, b); }
  }

  lemma {:induction false} FormTracks(env: Env, e: Expr, st: State, b: nat)
    requires Starts(st, b)
    ensures Tracks(Form(env, e, st), Form(env, e, Limit(st, b)), b)
    decreases e, 1
  {
    hide Interpolate, EvalRef, MakeList, MakeRange, MakeMap, Evaluate, EvalBinary, UnaryValue, LitValue;
    match e
    case Literal(_) =>
    case Interpolated(body) => InterpolateTracks(env, body, st, b);
    case Ref(ref) => EvalRefTracks(env, ref, st, b);
    case ListExpr(items) => MakeListTracks(env, items, st, b);
    case RangeExpr(_, _) => MakeRangeTracks(env, e, st, b);
    case MapExpr(entries) => MakeMapTracks(env, entries, MapCell([], map[]), st, b);
    case Unary(op, x) => EvaluateTracks(env, x, st, b);
    case Binary(_, _, _) => EvalBinaryTracks(env, e, st, b);
  }

  lemma {:induction false} InterpolateTracks(env: Env, body: seq<Node>, st: State, b: nat)
    requires Starts(st, b)
    ensures Tracks(Interpolate(env, body, st), Interpolate(env, body, Limit(st, b)), b)
    decreases body, 1
  {
    hide Run, Charge;
    var own := st.(out := "");
    RunTracks(env, body, own, b);
    var r := Run(env, body, own);
    if r.st.steps <= b && (r.Ran? || r.signal.Stopped?) {
      ChargeTracks(env, r.st.(out := st.out), |r.st.out|, b);
    }
  }

  lemma {:induction false} MakeListTracks(env: Env, items: seq<Expr>, st: State, b: nat)
    requires Starts(st, b)
    ensures Tracks(MakeList(env, items, st), MakeList(env, items, Limit(st, b)), b)
    decreases items, 1
  {
    hide Charge, EvaluateAll;
    ChargeTracks(env, st, |items| * SLOT_BYTES, b);
    var c := Charge(env, st, |items| * SLOT_BYTES);
    if c.Ran? { EvaluateAllTracks(env, items, [], c.st, b); }
  }

  lemma {:induction false} EvaluateAllTracks(env: Env, es: seq<Expr>, done: seq<Value>, st: State, b: nat)
    requires Starts(st, b)
    ensures Tracks(EvaluateAll(env, es, done, st), EvaluateAll(env, es, done, Limit(st, b)), b)
    decreases es, 0
  {
    hide Evaluate;
    if es != [] {
      EvaluateTracks(env, es[0], st, b);
      var r := Evaluate(env, es[0], st);
      if r.Ran? && r.st.steps <= b { EvaluateAllTracks(env, es[1..], done + [r.value], r.st, b); }
    }
  }

  lemma {:induction false} MakeRangeTracks(env: Env, e: Expr, st: State, b: nat)
    requires e.RangeExpr? && Starts(st, b)
    ensures Tracks(MakeRange(env, e, st), MakeRange(env, e, Limit(st, b)), b)
    decreases e, 0
  {
    hide Evaluate, Charge, RangeItems, ToInt;
    EvaluateTracks(env, e.from, st, b);
    var f := Evaluate(env, e.from, st);
    if f.Ran? && f.st.steps <= b {
      EvaluateTracks(env, e.to, f.st, b);
      var t := Evaluate(env, e.to, f.st);
      if t.Ran? && t.st.steps <= b { RangeListTracks(env, ToInt(env, f.value), ToInt(env, t.value), t.st, b); }
    }
  }

  lemma RangeListTracks(env: Env, from: Option<int>, to: Option<int>, st: State, b: nat)
    requires Starts(st, b)
    ensures from.Some? && to.Some? ==>
      var items := RangeItems(from.value, to.value, MAX_FOREACH_ITERATIONS);
      var st1 := st.(store := Alloc(st.store, ListCell(items)));
      Tracks(Charge(env, st1, |items| * SLOT_BYTES), Charge(env, Limit(st1, b), |items| * SLOT_BYTES), b)
  {
    hide Charge, RangeItems;
    if from.Some? && to.Some? {
      var items := RangeItems(from.value, to.value, MAX_FOREACH_ITERATIONS);
      ChargeTracks(env, st.(store := Alloc(st.store, ListCell(items))), |items| * SLOT_BYTES, b);
    }
  }

  lemma {:induction false} MakeMapTracks(env: Env, entries: seq<Entry>, c: Cell, st: State, b: nat)
    requires c.MapCell? && Starts(st, b)
    ensures Tracks(MakeMap(env, entries, c, st), MakeMap(env, entries, c, Limit(st, b)), b)
    decreases entries, 1
  {
    hide EntryKey, EntryValue, Key, Charge;
    if entries != [] {
      EntryKeyTracks(env, entries[0], st, b);
      var k := EntryKey(env, entries[0], st);
      if k.Ran? && k.st.steps <= b {
        EntryValueTracks(env, entries[0], k.st, b);
        var v := EntryValue(env, entries[0], k.st);
        if v.Ran? && v.st.steps <= b {
          KeyTracks(env, v.st, k.value, b);
          var key := Key(env, v.st, k.value);
          if key.Ran? {
            if key.value in c.vals {
              MakeMapTracks(env, entries[1..], PutCell(c, key.value, v.value), key.st, b);
            } else {
              ChargeTracks(env, key.st, SLOT_BYTES + |key.value|, b);
              var charged := Charge(env, key.st, SLOT_BYTES + |key.value|);
              if charged.Ran? {
                MakeMapTracks(env, entries[1..], PutCell(c, key.value, v.value), charged.st, b);
              }
            }
          }
        }
      }
    }
  }

  lemma {:induction false} EntryKeyTracks(env: Env, entry: Entry, st: State, b: nat)
    requires Starts(st, b)
    ensures Tracks(EntryKey(env, entry, st), EntryKey(env, entry, Limit(st, b)), b)
    decreases entry, 0
  {
    hide Evaluate;
    EvaluateTracks(env, entry.key, st, b);
  }

  lemma {:induction false} EntryValueTracks(env: Env, entry: Entry, st: State, b: nat)
    requires Starts(st, b)
    ensures Tracks(EntryValue(env, entry, st), EntryValue(env, entry, Limit(st, b)), b)
    decreases entry, 0
  {
    hide Evaluate;
    EvaluateTracks(env, entry.val, st, b);
  }

  lemma {:induction false} EvalBinaryTracks(env: Env, e: Expr, st: State, b: nat)
    requires e.Binary? && Starts(st, b)
    ensures Tracks(EvalBinary(env, e, st), EvalBinary(env, e, Limit(st, b)), b)
    decreases e, 0
  {
    hide Evaluate, BinaryValue;
    EvaluateTracks(env, e.l, st, b);
    var l := Evaluate(env, e.l, st);
    if l.Ran? && l.st.steps <= b {
      EvaluateTracks(env, e.r, l.st, b);
      var r := Evaluate(env, e.r, l.st);
      if r.Ran? && r.st.steps <= b { BinaryValueTracks(env, e.op, l.value, r.value, r.st, b); }
    }
  }

  lemma {:induction false} EvalRefTracks(env: Env, ref: RefExpr, st: State, b: nat)
    requires Starts(st, b)
    ensures Tracks(EvalRef(env, ref, st), EvalRef(env, ref, Limit(st, b)), b)
    decreases ref, 0, 1
  {
    hide Resolve;
    ResolveTracks(env, ref, |ref.chain|, st, b);
  }

  lemma {:induction false} ResolveTracks(env: Env, ref: RefExpr, upto: nat, st: State, b: nat)
    requires upto <= |ref.chain| && Starts(st, b)
    ensures Tracks(Resolve(env, ref, upto, st), Resolve(env, ref, upto, Limit(st, b)), b)
    decreases ref, 0, 0
  {
    hide Steps;
    if ref.name in st.vars { StepsTracks(env, ref.chain, 0, upto, st.vars[ref.name], st, b); }
  }

  lemma {:induction false} StepsTracks(env: Env, chain: seq<Accessor>, i: nat, upto: nat, cur: Value, st: State, b: nat)
    requires i <= upto <= |chain| && Starts(st, b)
    ensures Tracks(Steps(env, chain, i, upto, cur, st), Steps(env, chain, i, upto, cur, Limit(st, b)), b)
    decreases chain, upto - i
  {
    hide Access;
    if i < upto && !cur.Nil? {
      AccessTracks(env, cur, chain[i], st, b);
      var r := Access(env, cur, chain[i], st);
      if r.Ran? && r.st.steps <= b { StepsTracks(env, chain, i + 1, upto, r.value, r.st, b); }
    }
  }

  lemma {:induction false} AccessTracks(env: Env, cur: Value, a: Accessor, st: State, b: nat)
    requires Starts(st, b)
    ensures Tracks(Access(env, cur, a, st), Access(env, cur, a, Limit(st, b)), b)
    decreases a, 0
  {
    hide Evaluate, EvaluateAll, CallMethod, IndexInto, PropertyOf;
    match a
    case Property(_) =>
    case Index(index) => EvaluateTracks(env, index, st, b);
    case Method(name, args) =>
      EvaluateAllTracks(env, args, [], st, b);
      var r := EvaluateAll(env, args, [], st);
      if r.Ran? && r.st.steps <= b { CallMethodTracks(env, cur, name, r.value, r.st, b); }
  }

  // ---- The main results

  /** The state a render starts in. */
  function Initial(vars: map<string, Value>, store: Store, budget: Option<nat>): State {
    State(vars, "", 0, budget, store)
  }

  /** The steps a template takes when nothing limits them. */
  function StepsOf(env: Env, body: seq<Node>, vars: map<string, Value>, store: Store): nat {
    Run(env, body, Initial(vars, store, None)).st.steps
  }

  /**
   A render under budget b ends like the unlimited one, in the same state, exactly when that
   takes at most b steps; otherwise it fails with the step-budget error at step b + 1.
   */
  lemma BudgetIsExact(env: Env, body: seq<Node>, vars: map<string, Value>, store: Store, b: nat)
    ensures var u := Run(env, body, Initial(vars, store, None));
            var l := Run(env, body, Initial(vars, store, Some(b)));
            && (l.Raised? && l.signal == StepBudget <==> StepsOf(env, body, vars, store) > b)
            && (StepsOf(env, body, vars, store) <= b ==> l == LimitOutcome(u, b))
            && (StepsOf(env, body, vars, store) > b ==> l.st.steps == b + 1)
            && |l.st.out| <= MAX_OUTPUT_BYTES
  {
    hide Run;
    RunTracks(env, body, Initial(vars, store, None), b);
  }

  /** A larger budget changes nothing about a render that a smaller one let complete. */
  lemma BudgetMonotone(env: Env, body: seq<Node>, vars: map<string, Value>, store: Store, b: nat, c: nat)
    requires b <= c
    requires var l := Run(env, body, Initial(vars, store, Some(b))); !(l.Raised? && l.signal == StepBudget)
    ensures var l := Run(env, body, Initial(vars, store, Some(b)));
            var m := Run(env, body, Initial(vars, store, Some(c)));
            && m == LimitOutcome(l, c)
            && RenderResult(m) == RenderResult(l)
            && l.st.steps <= b
  {
    hide Run;
    BudgetIsExact(env, body, vars, store, b);
    BudgetIsExact(env, body, vars, store, c);
  }
}
