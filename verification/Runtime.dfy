/**
 What a render works on: variables, output, step count, the store and the memory charged
 (internal/vtl/eval.go, internal/vtl/limits.go), and the pure operations on values.
 */
module Runtime {
  import opened Common
  import opened Ast
  import opened Values
  import opened Format
  import opened Limits
  import Scan

  const MAX_FOREACH_ITERATIONS: nat := 1000

  /** The store and the bytes charged so far; ticks counts the readings of the shared counter. */
  datatype Store = Store(heap: Heap, used: nat, ticks: nat)

  /** A render's state; budget is the number of steps it may take, if limited. */
  datatype State = State(vars: map<string, Value>, out: string, steps: nat, budget: Option<nat>, store: Store)

  /** What library code and host objects may fail with. */
  datatype HostError = HostMemory | HostOutput | HostDepth | HostOther(msg: string)

  datatype HostResult = HostResult(store: Store, result: Result<Value, HostError>)

  /** IEEE doubles as bits, and their operations; toInt32 truncates a double in the int32 range. */
  datatype Floats = Floats(
    of: int -> nat,
    eq: (nat, nat) -> bool,
    less: (nat, nat) -> bool,
    neg: nat -> nat,
    arith: (BinOp, nat, nat) -> Value,
    toInt32: nat -> Option<int>)

  /**
   The surroundings of a render: library code, float literals, string and host methods, host properties, the
   bytes other renders hold at each reading of the shared counter.
   */
  datatype Env = Env(
    lib: Library,
    floats: Floats,
    floatOf: string -> nat,
    call: (Store, Value, string, seq<Value>) -> HostResult,
    hostGet: (nat, string) -> Value,
    others: nat -> int)

  /** Control flow and errors, carried the same way through the evaluator. */
  datatype Signal =
    | StepBudget | MemoryLimit | OutputOverflow | DepthOverflow
    | Stopped | Broken | Returned(value: Value)
    | Failed(msg: string)

  datatype Outcome<+T> = Ran(value: T, st: State) | Raised(signal: Signal, st: State) {
    predicate IsFailure() { Raised? }

    function PropagateFailure<U>(): Outcome<U>
      requires Raised?
    {
      Raised(signal, st)
    }

    function Extract(): (T, State)
      requires Ran?
    {
      (value, st)
    }
  }

  /**
   What every part of a render keeps: steps only go up, the budget stays, output stays within its
   limit, and without a budget nothing fails for steps.
   */
  ghost predicate Sane<T>(st: State, r: Outcome<T>) {
    && r.st.steps >= st.steps && r.st.budget == st.budget
    && (|st.out| <= MAX_OUTPUT_BYTES ==> |r.st.out| <= MAX_OUTPUT_BYTES)
    && (st.budget.None? && r.Raised? ==> r.signal != StepBudget)
  }

  // ---- Steps, output and memory

  function Step(st: State): (r: Outcome<()>)
    ensures Sane(st, r)
  {
    var st1 := st.(steps := st.steps + 1);
    if st.budget.Some? && st1.steps > st.budget.value then Raised(StepBudget, st1) else Ran((), st1)
  }

  function Write(st: State, s: string): (r: Outcome<()>)
    ensures Sane(st, r)
  {
    if |st.out| + |s| > MAX_OUTPUT_BYTES then Raised(OutputOverflow, st) else Ran((), st.(out := st.out + s))
  }

  /** Adds n to what the render has charged; too much is an error, but stays charged. */
  function ChargeStore(env: Env, s: Store, n: nat): (Store, bool) {
    var s1 := s.(used := s.used + n, ticks := s.ticks + 1);
    (s1, s1.used <= MAX_ALLOC_BYTES && env.others(s.ticks) + s1.used <= MAX_IN_FLIGHT_BYTES)
  }

  /** The answer a charge of n bytes would get; nothing is added. */
  function CheckStore(env: Env, s: Store, n: nat): (Store, bool) {
    (s.(ticks := s.ticks + 1),
     s.used + n <= MAX_ALLOC_BYTES && env.others(s.ticks) + s.used + n <= MAX_IN_FLIGHT_BYTES)
  }

  function Charge(env: Env, st: State, n: nat): (r: Outcome<()>)
    ensures Sane(st, r) && r.st == st.(store := r.st.store)
  {
    var (s, ok) := ChargeStore(env, st.store, n);
    if ok then Ran((), st.(store := s)) else Raised(MemoryLimit, st.(store := s))
  }

  function FailureSignal(f: Failure): Signal {
    match f
    case OutputLimit => OutputOverflow
    case DepthLimit => DepthOverflow
    case CyclicValue => Failed("cyclic value")
  }

  /** The text of a value within limit, as an outcome. */
  function TextOf(env: Env, st: State, v: Value, limit: int): (r: Outcome<string>)
    ensures Sane(st, r) && r.st == st
  {
    var (text, failure) := FormatText(env.lib, st.store.heap, v, limit);
    if failure.Some? then Raised(FailureSignal(failure.value), st) else Ran(text, st)
  }

  /** The text of a value, cut off at the limits (Stringify). */
  function Stringify(env: Env, h: Heap, v: Value): string { FormatText(env.lib, h, v, MAX_OUTPUT_BYTES).0 }

  /** A new cell; the address of the value is the old size of the store. */
  function Alloc(s: Store, c: Cell): Store { s.(heap := s.heap + [c]) }

  // ---- Pure operations

  function Truthy(v: Value): bool {
    match v
    case Nil => false
    case Bool(b) => b
    case _ => true
  }

  /** Wraps to 64 bits two's complement. */
  function Wrap64(x: int): int { (x + 0x8000_0000_0000_0000) % 0x1_0000_0000_0000_0000 - 0x8000_0000_0000_0000 }

  /** Division truncating toward zero. */
  function TruncDiv(a: int, b: int): int
    requires b != 0
  {
    var q := (if a < 0 then -a else a) / (if b < 0 then -b else b);
    if (a < 0) == (b < 0) then q else -q
  }

  function IntArith(op: BinOp, a: int, b: int): Value {
    match op
    case Add => Int(Wrap64(a + b))
    case Sub => Int(Wrap64(a - b))
    case Mul => Int(Wrap64(a * b))
    case Div => if b == 0 then Nil else Int(Wrap64(TruncDiv(a, b)))
    case _ => if b == 0 then Nil else Int(Wrap64(a - b * TruncDiv(a, b)))
  }

  /** An index, offset or bound: an int32, a double truncated to one, or none. */
  function ToInt(env: Env, v: Value): Option<int> {
    match v
    case Int(i) => if -0x8000_0000 <= i <= 0x7fff_ffff then Some(i) else None
    case Float(bits) => env.floats.toInt32(bits)
    case _ => None
  }

  function ToFloat(env: Env, v: Value): Option<nat> {
    match v
    case Int(i) => Some(env.floats.of(i))
    case Float(bits) => Some(bits)
    case _ => None
  }

  /** Numbers compare as doubles, booleans as booleans, all else by identity or text. */
  function Equal(env: Env, h: Heap, l: Value, r: Value): bool {
    if l.Nil? || r.Nil? then l.Nil? && r.Nil?
    else if ToFloat(env, l).Some? && ToFloat(env, r).Some? then
      env.floats.eq(ToFloat(env, l).value, ToFloat(env, r).value)
    else if l.Bool? then r.Bool? && l.b == r.b
    else if IsRef(l) && l == r then true
    else
      var (ls, lf) := FormatText(env.lib, h, l, MAX_OUTPUT_BYTES);
      var (rs, rf) := FormatText(env.lib, h, r, MAX_OUTPUT_BYTES);
      lf.None? && rf.None? && ls == rs
  }

  function StringLess(a: string, b: string): bool {
    if b == "" then false
    else if a == "" then true
    else a[0] < b[0] || (a[0] == b[0] && StringLess(a[1..], b[1..]))
  }

  function Compare(env: Env, op: BinOp, l: Value, r: Value): bool {
    var (fl, fr) := (ToFloat(env, l), ToFloat(env, r));
    if fl.Some? && fr.Some? then
      Ordered(op, env.floats.less(fl.value, fr.value), env.floats.less(fr.value, fl.value))
    else if l.Str? && r.Str? then Ordered(op, StringLess(l.s, r.s), StringLess(r.s, l.s))
    else false
  }

  function Ordered(op: BinOp, less: bool, greater: bool): bool {
    match op
    case Lt => less
    case Gt => !less && greater
    case Le => less || !greater
    case _ => !less
  }
}
