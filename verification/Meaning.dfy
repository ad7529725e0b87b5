/**
 What template nodes do (internal/vtl/eval.go:140-446), rule by rule: each says how a node or an expression ends in
 terms of its parts alone.
 */
module Meaning {
  import opened Common
  import opened Ast
  import opened Values
  import opened Format
  import opened Limits
  import opened Runtime
  import opened Methods
  import opened Eval

  // ---- #if

  /** The two values that make a condition fail. */
  predicate IsFalse(v: Value) { v == Nil || v == Bool(false) }

  /** The conditions, evaluated in order, all fail, and leave the state last. */
  ghost predicate AllFail(env: Env, branches: seq<Branch>, st: State, last: State)
    decreases |branches|
  {
    if branches == [] then last == st
    else
      var o := Evaluate(env, branches[0].cond, st);
      o.Ran? && IsFalse(o.value) && AllFail(env, branches[1..], o.st, last)
  }

  lemma {:induction false} BranchesFrom(env: Env, n: Node, i: nat, k: nat, st: State, mid: State)
    requires n.IfNode? && i <= k <= |n.branches| && AllFail(env, n.branches[i..k], st, mid)
    ensures Branches(env, n, i, st) == Branches(env, n, k, mid)
    decreases k - i
  {
    hide Evaluate, Chosen, Otherwise;
    if i < k {
      assert n.branches[i..k][0] == n.branches[i] && n.branches[i..k][1..] == n.branches[i + 1..k];
      BranchesFrom(env, n, i + 1, k, Evaluate(env, n.branches[i].cond, st).st, mid);
    }
  }

  /**
   The first branch whose condition gives anything else is run, from the state its condition leaves; an error in
   a condition before that ends the node.
   */
  lemma {:induction false} IfRunsFirst(env: Env, branches: seq<Branch>, other: ElsePart, k: nat, st: State, mid: State)
    requires k < |branches| && AllFail(env, branches[..k], st, mid)
    ensures var o := Evaluate(env, branches[k].cond, mid);
      && (o.Ran? && !IsFalse(o.value) ==> Exec(env, IfNode(branches, other), st) == Run(env, branches[k].body, o.st))
      && (o.Raised? ==> Exec(env, IfNode(branches, other), st) == Raised(o.signal, o.st))
  {
    hide Evaluate, Run;
    var n := IfNode(branches, other);
    assert branches[0..k] == branches[..k];
    BranchesFrom(env, n, 0, k, st, mid);
  }

  /** When all conditions fail, the #else body is run, if there is one. */
  lemma {:induction false} IfRunsElse(env: Env, branches: seq<Branch>, other: ElsePart, st: State, last: State)
    requires AllFail(env, branches, st, last)
    ensures Exec(env, IfNode(branches, other), st) == if other.Else? then Run(env, other.body, last) else Ran((), last)
  {
    hide Evaluate, Run, Chosen;
    var n := IfNode(branches, other);
    assert branches[0..|branches|] == branches;
    BranchesFrom(env, n, 0, |branches|, st, last);
  }

  /** One of the two is the case. */
  lemma {:induction false} IfIsDecided(env: Env, branches: seq<Branch>, st: State) returns (k: nat, mid: State)
    ensures k <= |branches| && AllFail(env, branches[..k], st, mid)
    ensures k < |branches| ==> var o := Evaluate(env, branches[k].cond, mid); o.Raised? || !IsFalse(o.value)
    decreases |branches|
  {
    hide Evaluate;
    k, mid := 0, st;
    if branches != [] {
      var o := Evaluate(env, branches[0].cond, st);
      if o.Ran? && IsFalse(o.value) {
        var j, last := IfIsDecided(env, branches[1..], o.st);
        k, mid := j + 1, last;
        assert branches[..k][0] == branches[0] && branches[..k][1..] == branches[1..][..j];
      }
    }
  }

  // ---- #set

  /** After #set($x = e), $x is the value of e, and everything else is as evaluating e left it. */
  lemma {:induction false} SetBinds(env: Env, x: string, e: Expr, st: State)
    ensures var o := Evaluate(env, e, st);
      Exec(env, SetNode(RefExpr(x, []), e), st) ==
      if o.Ran? then Ran((), o.st.(vars := o.st.vars[x := o.value])) else Raised(o.signal, o.st)
  {
    hide Evaluate;
  }

  /** A variable is its value, and null without one. */
  lemma {:induction false} VariableIsRead(env: Env, x: string, st: State)
    requires Step(st).Ran?
    ensures Evaluate(env, Ref(RefExpr(x, [])), st) == Ran(if x in st.vars then st.vars[x] else Nil, Step(st).st)
  {
    hide Evaluate;
    FormIs(env, Ref(RefExpr(x, [])), st);
    RefIs(env, RefExpr(x, []), Step(st).st);
    if x in st.vars { NoSteps(env, st.vars[x], Step(st).st); }
  }

  lemma {:induction false} NoSteps(env: Env, v: Value, st: State)
    ensures Steps(env, [], 0, 0, v, st) == Ran(v, st)
  {
  }

  lemma {:induction false} FormIs(env: Env, e: Expr, st: State)
    ensures Evaluate(env, e, st) == if Step(st).Ran? then Form(env, e, Step(st).st) else Raised(StepBudget, Step(st).st)
  {
    hide Form;
  }

  lemma {:induction false} RefIs(env: Env, ref: RefExpr, st: State)
    ensures Form(env, Ref(ref), st) ==
      if ref.name in st.vars then Steps(env, ref.chain, 0, |ref.chain|, st.vars[ref.name], st) else Ran(Nil, st)
  {
    hide Form, Steps, EvalRef;
    FormOfRef(env, ref, st);
    ResolveIs(env, ref, st);
  }

  lemma {:induction false} FormOfRef(env: Env, ref: RefExpr, st: State)
    ensures Form(env, Ref(ref), st) == EvalRef(env, ref, st)
  {
    hide EvalRef;
  }

  lemma {:induction false} ResolveIs(env: Env, ref: RefExpr, st: State)
    ensures EvalRef(env, ref, st) ==
      if ref.name in st.vars then Steps(env, ref.chain, 0, |ref.chain|, st.vars[ref.name], st) else Ran(Nil, st)
  {
    hide Steps;
  }

  /** What has been set is what is read. */
  lemma {:induction false} SetThenRead(env: Env, x: string, e: Expr, st: State)
    requires Exec(env, SetNode(RefExpr(x, []), e), st).Ran?
    ensures var s1 := Exec(env, SetNode(RefExpr(x, []), e), st).st; var v := Evaluate(env, e, st);
      v.Ran? && (Step(s1).Ran? ==> Evaluate(env, Ref(RefExpr(x, [])), s1) == Ran(v.value, Step(s1).st))
  {
    SetBinds(env, x, e, st);
    var s1 := Exec(env, SetNode(RefExpr(x, []), e), st).st;
    if Step(s1).Ran? { VariableIsRead(env, x, s1); }
    hide Evaluate, Exec, Step;
  }

  // ---- #foreach

  /** The items of a list, or the values of a map in the order of its keys, up to the limit on rounds; else none. */
  ghost predicate RoundItems(h: Heap, src: Value, items: seq<Value>) {
    match src
    case ListRef(a) =>
      if a < |h| && h[a].ListCell? then
        && |items| == (if |h[a].items| <= 1000 then |h[a].items| else 1000)
        && forall i :: 0 <= i < |items| ==> items[i] == h[a].items[i]
      else items == []
    case MapRef(a) =>
      if a < |h| && h[a].MapCell? then
        && |items| == (if |h[a].keys| <= 1000 then |h[a].keys| else 1000)
        && forall i :: 0 <= i < |items| ==>
             items[i] == if h[a].keys[i] in h[a].vals then h[a].vals[h[a].keys[i]] else Nil
      else items == []
    case _ => items == []
  }

  lemma ItemsAre(h: Heap, src: Value, items: seq<Value>)
    requires RoundItems(h, src, items)
    ensures items == IterItems(h, src, MAX_FOREACH_ITERATIONS)
  {
    assert |items| == |IterItems(h, src, MAX_FOREACH_ITERATIONS)|;
    forall i | 0 <= i < |items| ensures items[i] == IterItems(h, src, MAX_FOREACH_ITERATIONS)[i] {}
  }

  /** What $foreach tells of round i of n. */
  ghost predicate TellsRound(c: Cell, i: nat, n: nat) {
    && c.MapCell? && c.keys == ["index", "count", "hasNext", "first", "last"]
    && c.vals.Keys == {"index", "count", "hasNext", "first", "last"}
    && c.vals["index"] == Int(i) && c.vals["count"] == Int(i + 1) && c.vals["hasNext"] == Bool(i + 1 < n)
    && c.vals["first"] == Bool(i == 0) && c.vals["last"] == Bool(i + 1 == n)
  }

  /**
   A round starts as the one before it ended, but for its variables: the loop variable is the item, $velocityCount
   the number of the round, and $foreach a new map.
   */
  ghost predicate StartsRound(before: State, st: State, x: string, item: Value, i: nat, n: nat) {
    var h := before.store.heap;
    && st == before.(vars := st.vars, store := before.store.(heap := st.store.heap))
    && |st.store.heap| == |h| + 1 && st.store.heap[..|h|] == h && TellsRound(st.store.heap[|h|], i, n)
    && st.vars.Keys == before.vars.Keys + {x, "foreach", "velocityCount"}
    && (forall y <- st.vars ::
          st.vars[y] == if y == "velocityCount" then Int(i + 1)
                        else if y == "foreach" then MapRef(|h|)
                        else if y == x then item
                        else before.vars[y])
  }

  /** The k-th round from before gets through and leaves the state after. */
  ghost predicate RoundRuns(env: Env, x: string, body: seq<Node>, items: seq<Value>, k: nat, before: State,
                            after: State)
    requires 0 < k <= |items|
  {
    exists start: State ::
      StartsRound(before, start, x, items[k - 1], k - 1, |items|) && Run(env, body, start) == Ran((), after)
  }

  /** The first k rounds get through, one after the other, and leave the state last. */
  ghost predicate Rounds(env: Env, x: string, body: seq<Node>, items: seq<Value>, k: nat, st: State, last: State)
    requires k <= |items|
    decreases k
  {
    if k == 0 then last == st
    else exists before: State ::
           Rounds(env, x, body, items, k - 1, st, before) && RoundRuns(env, x, body, items, k, before, last)
  }

  /** A variable is as it was: with the same value, or with none. */
  predicate SameVar(vars: map<string, Value>, before: map<string, Value>, name: string) {
    (name in vars <==> name in before) && (name in before ==> vars[name] == before[name])
  }

  /** The variables of a loop over x. */
  predicate LoopName(x: string, y: string) { y == x || y == "foreach" || y == "velocityCount" }

  /** The state after a loop: its variables are those of st again. */
  ghost predicate EndsLoop(st: State, last: State, after: State, x: string) {
    && after == last.(vars := after.vars)
    && (forall y: string :: LoopName(x, y) ==> SameVar(after.vars, st.vars, y))
    && (forall y: string :: !LoopName(x, y) ==> SameVar(after.vars, last.vars, y))
  }

  /** The state in which a round starts, as the loop makes it. */
  function RoundState(before: State, x: string, items: seq<Value>, i: nat): State
    requires i < |items|
  {
    before.(store := Alloc(before.store, LoopInfo(i, |items|)),
            vars := LoopVars(before.vars, x, items[i], MapRef(|before.store.heap|), i))
  }

  lemma RoundStateStarts(before: State, x: string, items: seq<Value>, i: nat)
    requires i < |items|
    ensures StartsRound(before, RoundState(before, x, items, i), x, items[i], i, |items|)
  {
    var st := RoundState(before, x, items, i);
    var c := LoopInfo(i, |items|);
    assert st.store.heap[..|before.store.heap|] == before.store.heap;
    assert c.vals.Keys == {"index", "count", "hasNext", "first", "last"};
    assert st.vars.Keys == before.vars.Keys + {x, "foreach", "velocityCount"};
  }

  lemma RoundStartIsOne(before: State, st: State, x: string, items: seq<Value>, i: nat)
    requires i < |items| && StartsRound(before, st, x, items[i], i, |items|)
    ensures st == RoundState(before, x, items, i)
  {
    var r := RoundState(before, x, items, i);
    var h := before.store.heap;
    RoundStateStarts(before, x, items, i);
    assert st.vars == r.vars;
    CellIsOne(st.store.heap[|h|], r.store.heap[|h|], i, |items|);
    assert st.store.heap == h + [st.store.heap[|h|]];
    assert r.store.heap == h + [r.store.heap[|h|]];
    hide TellsRound, LoopInfo, LoopVars;
  }

  lemma CellIsOne(c: Cell, d: Cell, i: nat, n: nat)
    requires TellsRound(c, i, n) && TellsRound(d, i, n)
    ensures c == d
  {
    forall k | k in c.vals ensures c.vals[k] == d.vals[k] {
      assert k == "index" || k == "count" || k == "hasNext" || k == "first" || k == "last";
    }
    assert c.vals == d.vals;
  }

  lemma {:induction false} RoundsAreLoop(env: Env, x: string, body: seq<Node>, items: seq<Value>, k: nat, st: State,
                                         last: State)
    requires k <= |items| && Rounds(env, x, body, items, k, st, last)
    ensures Loop(env, x, body, items, 0, st) == Loop(env, x, body, items, k, last)
    decreases k
  {
    hide RoundRuns, Loop;
    if k > 0 {
      var before: State :|
        Rounds(env, x, body, items, k - 1, st, before) && RoundRuns(env, x, body, items, k, before, last);
      RoundsAreLoop(env, x, body, items, k - 1, st, before);
      OneRound(env, x, body, items, k - 1, before, last);
    }
  }

  lemma {:induction false} OneRound(env: Env, x: string, body: seq<Node>, items: seq<Value>, i: nat, before: State,
                                    last: State)
    requires i < |items| && RoundRuns(env, x, body, items, i + 1, before, last)
    ensures Loop(env, x, body, items, i, before) == Loop(env, x, body, items, i + 1, last)
  {
    hide StartsRound, Loop, Run, RoundState;
    var start: State :| StartsRound(before, start, x, items[i], i, |items|) && Run(env, body, start) == Ran((), last);
    RoundStartIsOne(before, start, x, items, i);
    LoopRound(env, x, body, items, i, before);
  }

  lemma {:induction false} LoopRound(env: Env, x: string, body: seq<Node>, items: seq<Value>, i: nat, st: State)
    requires i < |items|
    ensures var r := Run(env, body, RoundState(st, x, items, i));
      Loop(env, x, body, items, i, st) == if r.Ran? then Loop(env, x, body, items, i + 1, r.st) else r
  {
    hide Run, LoopInfo, LoopVars;
  }

  lemma {:induction false} BackAgain(st: State, last: State, x: string)
    ensures EndsLoop(st, last, last.(vars := PutBack(last.vars, st.vars, x)), x)
  {
  }

  /**
   A loop runs its body once for each item, in order. It ends when they are used up, at a #break, or, with the
   signal, at whatever else ends a round; its variables are then as they were.
   */
  lemma {:induction false} ForeachRuns(env: Env, x: string, iter: Expr, body: seq<Node>, st: State, items: seq<Value>,
                                       k: nat, last: State, start: State)
    requires var src := Evaluate(env, iter, st);
      src.Ran? && RoundItems(src.st.store.heap, src.value, items) && k <= |items| &&
      Rounds(env, x, body, items, k, src.st, last)
    ensures var src := Evaluate(env, iter, st); var o := Exec(env, ForeachNode(x, iter, body), st);
      && (k == |items| ==> o.Ran? && EndsLoop(src.st, last, o.st, x))
      && (k < |items| && StartsRound(last, start, x, items[k], k, |items|) && Run(env, body, start).Raised? ==>
            var r := Run(env, body, start);
            && EndsLoop(src.st, r.st, o.st, x)
            && (if r.signal == Broken then o.Ran? else o.Raised? && o.signal == r.signal))
  {
    hide Evaluate, Run, Loop, Rounds, StartsRound, EndsLoop, RoundItems, PutBack, LoopInfo, LoopVars;
    var src := Evaluate(env, iter, st);
    ItemsAre(src.st.store.heap, src.value, items);
    RoundsAreLoop(env, x, body, items, k, src.st, last);
    var n := ForeachNode(x, iter, body);
    ForeachIsLoop(env, n, st, items);
    if k == |items| {
      LoopDone(env, x, body, items, last);
      BackAgain(src.st, last, x);
    } else if StartsRound(last, start, x, items[k], k, |items|) && Run(env, body, start).Raised? {
      RoundStartIsOne(last, start, x, items, k);
      LoopRound(env, x, body, items, k, last);
      BackAgain(src.st, Run(env, body, start).st, x);
    }
  }

  lemma {:induction false} LoopDone(env: Env, x: string, body: seq<Node>, items: seq<Value>, st: State)
    ensures Loop(env, x, body, items, |items|, st) == Ran((), st)
  {
    hide Run;
  }

  lemma {:induction false} ForeachIsLoop(env: Env, n: Node, st: State, items: seq<Value>)
    requires n.ForeachNode? && Evaluate(env, n.iter, st).Ran?
    requires var src := Evaluate(env, n.iter, st); items == IterItems(src.st.store.heap, src.value, 1000)
    ensures var src := Evaluate(env, n.iter, st); var r := Loop(env, n.varName, n.body, items, 0, src.st);
      var back := r.st.(vars := PutBack(r.st.vars, src.st.vars, n.varName)); var o := Exec(env, n, st);
      if r.Raised? && r.signal != Broken then o == Raised(r.signal, back) else o == Ran((), back)
  {
    hide Evaluate, Loop, PutBack, IterItems;
  }

  /** What cannot be evaluated is not gone through. */
  lemma {:induction false} ForeachFails(env: Env, x: string, iter: Expr, body: seq<Node>, st: State)
    requires Evaluate(env, iter, st).Raised?
    ensures var src := Evaluate(env, iter, st); Exec(env, ForeachNode(x, iter, body), st) == Raised(src.signal, src.st)
  {
    hide Evaluate, Loop;
  }
}
