/**
 Where #stop ends (internal/vtl/eval.go:377-427), and what a #foreach leaves behind
 (internal/vtl/eval.go:288-322).
 */
module Signals {
  import opened Common
  import opened Ast
  import opened Values
  import opened Limits
  import opened Runtime
  import opened Methods
  import opened Eval

  ghost predicate NeverStops<T>(o: Outcome<T>) { o.Raised? ==> !o.signal.Stopped? }

  lemma CallNeverStops(env: Env, v: Value, name: string, args: seq<Value>, st: State)
    ensures NeverStops(CallMethod(env, v, name, args, st))
  {
    hide Call, ExpectedGrowth, Growth, Equal;
  }

  lemma ArithNeverStops(env: Env, op: BinOp, l: Value, r: Value, st: State)
    ensures NeverStops(Arith(env, op, l, r, st))
  {
    hide IntArith, ToFloat;
  }

  lemma BinaryNeverStops(env: Env, op: BinOp, l: Value, r: Value, st: State)
    ensures NeverStops(BinaryValue(env, op, l, r, st))
  {
    hide Arith, Equal, Compare;
    ArithNeverStops(env, op, l, r, st);
  }

  lemma InterpolateNeverStops(env: Env, body: seq<Node>, st: State)
    ensures NeverStops(Interpolate(env, body, st))
  {
    hide Run;
  }

  /**
   Evaluating an expression never stops the template: #stop in a string ends that string, however deep the
   string is inside lists, arguments and other strings.
   */
  lemma {:induction false} StopEndsOnlyItsString(env: Env, e: Expr, st: State)
    ensures NeverStops(Evaluate(env, e, st))
    decreases e, 2
  {
    hide Form;
    if Step(st).Ran? { FormNeverStops(env, e, Step(st).st); }
  }

  lemma {:induction false} FormNeverStops(env: Env, e: Expr, st: State)
    ensures NeverStops(Form(env, e, st))
    decreases e, 1
  {
    hide Evaluate, Interpolate, Resolve, MakeList, MakeRange, MakeMap, EvalBinary, UnaryValue;
    match e {
      case Literal(_) =>
      case Interpolated(body) => InterpolateNeverStops(env, body, st);
      case Ref(ref) => ReferenceNeverStops(env, ref, |ref.chain|, st);
      case ListExpr(items) => ListNeverStops(env, items, st);
      case RangeExpr(_, _) => RangeNeverStops(env, e, st);
      case MapExpr(entries) => MapNeverStops(env, entries, MapCell([], map[]), st);
      case Unary(_, x) => StopEndsOnlyItsString(env, x, st);
      case Binary(_, _, _) => OperatorNeverStops(env, e, st);
    }
  }

  lemma ListNeverStops(env: Env, items: seq<Expr>, st: State)
    ensures NeverStops(MakeList(env, items, st))
    decreases items, 1
  {
    hide EvaluateAll;
    var c := Charge(env, st, |items| * SLOT_BYTES);
    if c.Ran? { ItemsNeverStop(env, items, [], c.st); }
  }

  lemma {:induction false} ItemsNeverStop(env: Env, es: seq<Expr>, done: seq<Value>, st: State)
    ensures NeverStops(EvaluateAll(env, es, done, st))
    decreases es, 0
  {
    hide Evaluate;
    if es != [] {
      StopEndsOnlyItsString(env, es[0], st);
      var v := Evaluate(env, es[0], st);
      if v.Ran? { ItemsNeverStop(env, es[1..], done + [v.value], v.st); }
    }
  }

  lemma RangeNeverStops(env: Env, e: Expr, st: State)
    requires e.RangeExpr?
    ensures NeverStops(MakeRange(env, e, st))
    decreases e, 0
  {
    hide Evaluate, RangeItems, ToInt;
    StopEndsOnlyItsString(env, e.from, st);
    var from := Evaluate(env, e.from, st);
    if from.Ran? { StopEndsOnlyItsString(env, e.to, from.st); }
  }

  lemma KeyNeverStops(env: Env, st: State, v: Value)
    ensures NeverStops(Key(env, st, v))
  {
  }

  lemma {:induction false} MapNeverStops(env: Env, entries: seq<Entry>, c: Cell, st: State)
    requires c.MapCell?
    ensures NeverStops(MakeMap(env, entries, c, st))
    decreases entries, 1
  {
    hide EntryKey, EntryValue, Key;
    if entries != [] {
      EntryNeverStops(env, entries[0], st);
      var k := EntryKey(env, entries[0], st);
      if k.Ran? {
        EntryNeverStops(env, entries[0], k.st);
        var v := EntryValue(env, entries[0], k.st);
        if v.Ran? {
          KeyNeverStops(env, v.st, k.value);
          var key := Key(env, v.st, k.value);
          if key.Ran? {
            var isOld := key.value in c.vals;
            var charged := if isOld then Ran((), key.st) else Charge(env, key.st, SLOT_BYTES + |key.value|);
            if charged.Ran? { MapNeverStops(env, entries[1..], PutCell(c, key.value, v.value), charged.st); }
          }
        }
      }
    }
  }

  lemma EntryNeverStops(env: Env, entry: Entry, st: State)
    ensures NeverStops(EntryKey(env, entry, st)) && NeverStops(EntryValue(env, entry, st))
    decreases entry, 0
  {
    hide Evaluate;
    StopEndsOnlyItsString(env, entry.key, st);
    StopEndsOnlyItsString(env, entry.val, st);
  }

  lemma OperatorNeverStops(env: Env, e: Expr, st: State)
    requires e.Binary?
    ensures NeverStops(EvalBinary(env, e, st))
    decreases e, 0
  {
    hide Evaluate, BinaryValue;
    StopEndsOnlyItsString(env, e.l, st);
    var l := Evaluate(env, e.l, st);
    if l.Ran? {
      StopEndsOnlyItsString(env, e.r, l.st);
      var r := Evaluate(env, e.r, l.st);
      if r.Ran? { BinaryNeverStops(env, e.op, l.value, r.value, r.st); }
    }
  }

  lemma ReferenceNeverStops(env: Env, ref: RefExpr, upto: nat, st: State)
    requires upto <= |ref.chain|
    ensures NeverStops(Resolve(env, ref, upto, st))
    decreases ref, 0
  {
    hide Steps;
    if ref.name in st.vars { ChainNeverStops(env, ref.chain, 0, upto, st.vars[ref.name], st); }
  }

  lemma {:induction false} ChainNeverStops(env: Env, chain: seq<Accessor>, i: nat, upto: nat, cur: Value, st: State)
    requires i <= upto <= |chain|
    ensures NeverStops(Steps(env, chain, i, upto, cur, st))
    decreases chain, upto - i
  {
    hide Access;
    if i < upto && !cur.Nil? {
      AccessNeverStops(env, cur, chain[i], st);
      var v := Access(env, cur, chain[i], st);
      if v.Ran? { ChainNeverStops(env, chain, i + 1, upto, v.value, v.st); }
    }
  }

  lemma AccessNeverStops(env: Env, cur: Value, a: Accessor, st: State)
    ensures NeverStops(Access(env, cur, a, st))
    decreases a, 0
  {
    hide Evaluate, EvaluateAll, CallMethod, PropertyOf, IndexInto;
    match a {
      case Property(_) =>
      case Index(index) => StopEndsOnlyItsString(env, index, st);
      case Method(name, args) =>
        ItemsNeverStop(env, args, [], st);
        var vs := EvaluateAll(env, args, [], st);
        if vs.Ran? { CallNeverStops(env, cur, name, vs.value, vs.st); }
    }
  }

  // ---- What a loop leaves behind

  /** A variable is as it was: with the same value, or with none. */
  predicate SameVar(vars: map<string, Value>, before: map<string, Value>, name: string) {
    (name in vars <==> name in before) && (name in before ==> vars[name] == before[name])
  }

  /** However a loop ends, its variable, $foreach and $velocityCount are as they were before its first round. */
  lemma LoopVariablesComeBack(env: Env, n: Node, st: State)
    requires n.ForeachNode? && Evaluate(env, n.iter, st).Ran?
    ensures var before := Evaluate(env, n.iter, st).st.vars;
            var after := Foreach(env, n, st).st.vars;
      SameVar(after, before, n.varName) && SameVar(after, before, "foreach") && SameVar(after, before, "velocityCount")
  {
    hide Evaluate, Loop, IterItems;
  }

  // ---- What gets out of a string

  /**
   What ends the rendering of a string gets out of it, but for #stop: then the string is what has been
   written so far.
   */
  lemma OnlyStopStaysInside(env: Env, body: seq<Node>, st: State)
    ensures var r := Run(env, body, st.(out := "")); var o := Interpolate(env, body, st);
      && (r.Raised? && !r.signal.Stopped? ==> o == Raised(r.signal, r.st.(out := st.out)))
      && (r.Raised? && r.signal.Stopped? ==> o.Ran? || o.signal == MemoryLimit)
      && (o.Ran? ==> o.value == Str(r.st.out) && o.st.out == st.out)
  {
    hide Run;
  }

  /** A template in two parts: the second is run where the first has got through. */
  lemma {:induction false} RunSplits(env: Env, a: seq<Node>, b: seq<Node>, st: State)
    ensures var r := Run(env, a, st); Run(env, a + b, st) == if r.Ran? then Run(env, b, r.st) else r
    decreases |a|
  {
    hide Exec;
    if a == [] {
      assert a + b == b;
    } else {
      assert (a + b)[1..] == a[1..] + b;
      var s := Step(st);
      if s.Ran? {
        var x := Exec(env, a[0], s.st);
        if x.Ran? { RunSplits(env, a[1..], b, x.st); }
      }
    }
  }

  /** How a node ends once the nodes in front of it have got through. */
  ghost predicate EndsAt(env: Env, before: seq<Node>, n: Node, st: State, signal: Signal, last: State) {
    var r := Run(env, before, st);
    r.Ran? && Step(r.st).Ran? && Exec(env, n, Step(r.st).st) == Raised(signal, last)
  }

  lemma RunEndsAt(env: Env, before: seq<Node>, n: Node, after: seq<Node>, st: State, signal: Signal, last: State)
    requires EndsAt(env, before, n, st, signal, last)
    ensures Run(env, before + [n] + after, st) == Raised(signal, last)
  {
    assert before + [n] + after == before + ([n] + after);
    RunSplits(env, before, [n] + after, st);
    assert ([n] + after)[0] == n;
    hide Exec;
  }

  /**
   A string whose template ends somewhere inside, at any node: a #stop makes it the text written so far, and
   whatever else ends it ends the expression as well, without that text.
   */
  lemma StringEndsAt(env: Env, before: seq<Node>, n: Node, after: seq<Node>, st: State, signal: Signal,
                     last: State)
    requires Step(st).Ran? && EndsAt(env, before, n, Step(st).st.(out := ""), signal, last)
    ensures var o := Evaluate(env, Interpolated(before + [n] + after), st); var back := last.(out := Step(st).st.out);
      if signal.Stopped? then (var c := Charge(env, back, |last.out|);
                               o == if c.Ran? then Ran(Str(last.out), c.st) else Raised(c.signal, c.st))
      else o == Raised(signal, back)
  {
    hide Evaluate, Run, Exec, EndsAt, Charge;
    RunEndsAt(env, before, n, after, Step(st).st.(out := ""), signal, last);
    StringIsRun(env, before + [n] + after, st);
  }

  lemma StringIsRun(env: Env, body: seq<Node>, st: State)
    requires Step(st).Ran?
    ensures Evaluate(env, Interpolated(body), st) == Interpolate(env, body, Step(st).st)
  {
    hide Interpolate;
  }

  /** A #break or #return that a string's template gets to ends the loop around the string, or the template. */
  lemma BreakAndReturnGetOut(env: Env, before: seq<Node>, after: seq<Node>, st: State)
    requires Step(st).Ran? && Run(env, before, Step(st).st.(out := "")).Ran?
    requires Step(Run(env, before, Step(st).st.(out := "")).st).Ran?
    ensures var o := Evaluate(env, Interpolated(before + [BreakNode] + after), st); o.Raised? && o.signal == Broken
    ensures var o := Evaluate(env, Interpolated(before + [ReturnNode(None)] + after), st);
      o.Raised? && o.signal == Returned(Nil)
  {
    BreakGetsOut(env, before, after, st);
    ReturnGetsOut(env, before, after, st);
    hide Evaluate, Run;
  }

  lemma BreakGetsOut(env: Env, before: seq<Node>, after: seq<Node>, st: State)
    requires Step(st).Ran? && Run(env, before, Step(st).st.(out := "")).Ran?
    requires Step(Run(env, before, Step(st).st.(out := "")).st).Ran?
    ensures var o := Evaluate(env, Interpolated(before + [BreakNode] + after), st); o.Raised? && o.signal == Broken
  {
    var last := Step(Run(env, before, Step(st).st.(out := "")).st).st;
    var n := BreakNode;
    assert Exec(env, n, last) == Raised(Broken, last);
    hide Run, Exec, Form;
    StringEndsAt(env, before, n, after, st, Broken, last);
  }

  lemma ReturnGetsOut(env: Env, before: seq<Node>, after: seq<Node>, st: State)
    requires Step(st).Ran? && Run(env, before, Step(st).st.(out := "")).Ran?
    requires Step(Run(env, before, Step(st).st.(out := "")).st).Ran?
    ensures var o := Evaluate(env, Interpolated(before + [ReturnNode(None)] + after), st);
      o.Raised? && o.signal == Returned(Nil)
  {
    var last := Step(Run(env, before, Step(st).st.(out := "")).st).st;
    var n := ReturnNode(None);
    assert Exec(env, n, last) == Raised(Returned(Nil), last);
    hide Run, Exec, Form;
    StringEndsAt(env, before, n, after, st, Returned(Nil), last);
  }

  /** A loop takes a #break of its body for itself, and passes on one from the value it goes through. */
  lemma LoopTakesBreak(env: Env, n: Node, st: State)
    requires n.ForeachNode?
    ensures var o := Foreach(env, n, st); var src := Evaluate(env, n.iter, st);
      (o.Raised? && o.signal.Broken?) <==> (src.Raised? && src.signal.Broken?)
  {
    hide Evaluate, Loop, IterItems;
  }
}
