/**
 The shared id counter (internal/idgen/idgen.go:97-128): calls that mint ids and calls that move the
 counter up, interleaved at their atomic operations.
 */
module IdCounter {
  const MAX_UINT64: nat := 0xffff_ffff_ffff_ffff

  /** What an atomic add of one leaves: the counter wraps. */
  function Incremented(counter: nat): nat { if counter >= MAX_UINT64 then 0 else counter + 1 }

  /** What moving the counter up to n in one step would leave. */
  function RaisedTo(counter: nat, n: nat): nat { if counter >= n then counter else n }

  /** An AdvanceTo(n) call before a load, between the load and its compare-and-swap, or done. */
  datatype Call = Loading(n: nat) | Swapping(n: nat, seen: nat) | Finished(n: nat)

  /** The counter, the ids minted so far in order, and the calls. */
  datatype World = World(counter: nat, minted: seq<nat>, calls: seq<Call>)

  datatype Step = Next | Advance(n: nat) | Load(c: nat) | Swap(c: nat)

  predicate Enabled(w: World, step: Step) {
    match step
    case Next => true
    case Advance(n) => n <= MAX_UINT64
    case Load(c) => c < |w.calls| && w.calls[c].Loading?
    case Swap(c) => c < |w.calls| && w.calls[c].Swapping?
  }

  function Apply(w: World, step: Step): World
    requires Enabled(w, step)
  {
    match step
    case Next => w.(counter := Incremented(w.counter), minted := w.minted + [Incremented(w.counter)])
    case Advance(n) => w.(calls := w.calls + [Loading(n)])
    case Load(c) =>
      var n := w.calls[c].n;
      w.(calls := w.calls[c := if w.counter >= n then Finished(n) else Swapping(n, w.counter)])
    case Swap(c) =>
      var call := w.calls[c];
      if w.counter == call.seen then w.(counter := call.n, calls := w.calls[c := Finished(call.n)])
      else w.(calls := w.calls[c := Loading(call.n)])
  }

  /** No id is minted from a counter that is already at its largest value. */
  predicate WithinRange(w: World, step: Step) { step.Next? ==> w.counter < MAX_UINT64 }

  /** A minted id is above the counter exactly when the counter has not reached its largest value. */
  lemma MintsAboveExactly(w: World)
    ensures Apply(w, Next).minted == w.minted + [Apply(w, Next).counter]
    ensures Apply(w, Next).counter > w.counter <==> WithinRange(w, Next)
  {
  }

  /** AdvanceTo(MAX_UINT64) and then an id: the counter starts over, below ids it has given before. */
  lemma WrappedCounterReusesIds()
    ensures var w := World(0, [], []);
      var full := Apply(Apply(Apply(Apply(w, Next), Advance(MAX_UINT64)), Load(0)), Swap(0));
      && full.counter == MAX_UINT64
      && Apply(Apply(full, Next), Next).minted == [1, 0, 1]
  {
    var w := World(0, [], []);
    var w1 := Apply(w, Next);
    var w2 := Apply(w1, Advance(MAX_UINT64));
    var w3 := Apply(w2, Load(0));
    var full := Apply(w3, Swap(0));
    assert w1 == World(1, [1], []);
    assert w2 == World(1, [1], [Loading(MAX_UINT64)]);
    assert w3 == World(1, [1], [Swapping(MAX_UINT64, 1)]);
    assert full == World(MAX_UINT64, [1], [Finished(MAX_UINT64)]);
    assert Apply(full, Next) == World(0, [1, 0], [Finished(MAX_UINT64)]);
  }

  /** Ids increase and none is above the counter; a call that is done has moved the counter far enough. */
  ghost predicate Inv(w: World) {
    && w.counter <= MAX_UINT64
    && (forall i :: 0 <= i < |w.minted| ==> w.minted[i] <= w.counter)
    && (forall i, j :: 0 <= i < j < |w.minted| ==> w.minted[i] < w.minted[j])
    && (forall c :: 0 <= c < |w.calls| ==>
          match w.calls[c]
          case Loading(n) => n <= MAX_UINT64
          case Swapping(n, seen) => n <= MAX_UINT64 && seen < n && seen <= w.counter
          case Finished(n) => n <= w.counter)
  }

  /** Every step within range keeps the invariant, and never moves the counter back. */
  lemma StepKeepsInv(w: World, step: Step)
    requires Inv(w) && Enabled(w, step) && WithinRange(w, step)
    ensures Inv(Apply(w, step))
    ensures w.counter <= Apply(w, step).counter
    ensures w.minted <= Apply(w, step).minted
  {
  }

  /** A call that has to load again finds the counter higher, so it tries at most as often as it has to go up. */
  lemma RetriesMakeProgress(w: World, c: nat)
    requires Inv(w) && Enabled(w, Swap(c)) && Apply(w, Swap(c)).calls[c].Loading?
    ensures w.calls[c].seen < w.counter
    ensures var again := Apply(Apply(w, Swap(c)), Load(c)).calls[c];
      again.Finished? || (again.Swapping? && again.n - again.seen < w.calls[c].n - w.calls[c].seen)
  {
  }

  /** The steps can be taken one after the other. */
  ghost predicate Possible(w: World, steps: seq<Step>)
    decreases |steps|
  {
    steps != [] ==> Enabled(w, steps[0]) && Possible(Apply(w, steps[0]), steps[1..])
  }

  /** Each mint of a run is within range. */
  ghost predicate AllWithinRange(w: World, steps: seq<Step>)
    requires Possible(w, steps)
    decreases |steps|
  {
    steps != [] ==> WithinRange(w, steps[0]) && AllWithinRange(Apply(w, steps[0]), steps[1..])
  }

  ghost function After(w: World, steps: seq<Step>): World
    requires Possible(w, steps)
    decreases |steps|
  {
    if steps == [] then w else After(Apply(w, steps[0]), steps[1..])
  }

  /**
   However mints and AdvanceTo calls interleave from some state on, the ids minted are above every id minted
   before, above every n whose AdvanceTo is done, and different from each other.
   */
  lemma {:induction false} LaterIdsAreNew(w: World, steps: seq<Step>, i: nat)
    requires Inv(w) && Possible(w, steps) && AllWithinRange(w, steps) && |w.minted| <= i < |After(w, steps).minted|
    ensures var id := After(w, steps).minted[i];
      && id > w.counter
      && (forall j :: 0 <= j < i ==> After(w, steps).minted[j] < id)
      && (forall c :: 0 <= c < |w.calls| && w.calls[c].Finished? ==> w.calls[c].n < id)
    decreases |steps|
  {
    AfterKeepsInv(w, steps);
    if steps != [] {
      var v := Apply(w, steps[0]);
      StepKeepsInv(w, steps[0]);
      if i < |v.minted| {
        AfterKeepsInv(v, steps[1..]);
      } else {
        LaterIdsAreNew(v, steps[1..], i);
      }
    }
  }

  lemma {:induction false} AfterKeepsInv(w: World, steps: seq<Step>)
    requires Inv(w) && Possible(w, steps) && AllWithinRange(w, steps)
    ensures Inv(After(w, steps))
    ensures w.counter <= After(w, steps).counter && w.minted <= After(w, steps).minted
    decreases |steps|
  {
    if steps != [] {
      StepKeepsInv(w, steps[0]);
      AfterKeepsInv(Apply(w, steps[0]), steps[1..]);
    }
  }

  // ---- One atomic step a call

  /** The counter and the ids minted, with an AdvanceTo in one step. */
  datatype Simple = Simple(counter: nat, minted: seq<nat>)

  datatype Effect = Minting | Raising(n: nat)

  function Affected(v: Simple, e: Effect): Simple {
    match e
    case Minting => Simple(Incremented(v.counter), v.minted + [Incremented(v.counter)])
    case Raising(n) => v.(counter := RaisedTo(v.counter, n))
  }

  function AllAffected(v: Simple, es: seq<Effect>): Simple
    decreases |es|
  {
    if es == [] then v else AllAffected(Affected(v, es[0]), es[1..])
  }

  /** A mint, or a whole AdvanceTo at the step that finishes its call; every other step stands for nothing. */
  function EffectOf(w: World, step: Step): seq<Effect>
    requires Enabled(w, step)
  {
    match step
    case Next => [Minting]
    case Advance(_) => []
    case _ => if Apply(w, step).calls[step.c].Finished? then [Raising(w.calls[step.c].n)] else []
  }

  ghost function EffectsOf(w: World, steps: seq<Step>): seq<Effect>
    requires Possible(w, steps)
    decreases |steps|
  {
    if steps == [] then [] else EffectOf(w, steps[0]) + EffectsOf(Apply(w, steps[0]), steps[1..])
  }

  /** A call that has found the counter below its n is below it until it loads again. */
  ghost predicate Loaded(w: World) {
    forall c :: 0 <= c < |w.calls| && w.calls[c].Swapping? ==> w.calls[c].seen < w.calls[c].n
  }

  /** A call that finishes acts as one maximum at that step, whatever was minted or raised since it began. */
  lemma FinishIsMaximum(w: World, step: Step, c: nat)
    requires Loaded(w) && Enabled(w, step) && c < |w.calls| && !w.calls[c].Finished?
    ensures var v := Apply(w, step);
      && Loaded(v) && v.calls[c].n == w.calls[c].n
      && (v.calls[c].Finished? ==> v.counter == RaisedTo(w.counter, w.calls[c].n) && v.minted == w.minted)
      && (step == Load(c) || step == Swap(c) ==> v.calls[c].Finished? || v.(calls := w.calls) == w)
  {
  }

  /**
   However mints and AdvanceTo calls interleave, the wrap of the counter included, the counter and the ids are
   those of a run in which every finished call is one maximum, taken at its last step, and an unfinished one has
   done nothing.
   */
  lemma {:induction false} AdvanceToIsAtomic(w: World, steps: seq<Step>)
    requires Loaded(w) && Possible(w, steps)
    ensures var v := After(w, steps);
      Simple(v.counter, v.minted) == AllAffected(Simple(w.counter, w.minted), EffectsOf(w, steps))
    decreases |steps|
  {
    if steps != [] {
      var v := Apply(w, steps[0]);
      EffectIsStep(w, steps[0]);
      AdvanceToIsAtomic(v, steps[1..]);
      OneMore(Simple(w.counter, w.minted), EffectOf(w, steps[0]), EffectsOf(v, steps[1..]));
      hide Apply, Loaded, EffectOf, AllAffected;
    }
  }

  lemma EffectIsStep(w: World, step: Step)
    requires Loaded(w) && Enabled(w, step)
    ensures var v := Apply(w, step);
      Loaded(v) && AllAffected(Simple(w.counter, w.minted), EffectOf(w, step)) == Simple(v.counter, v.minted)
    ensures |EffectOf(w, step)| <= 1
  {
  }

  lemma OneMore(v: Simple, first: seq<Effect>, rest: seq<Effect>)
    requires |first| <= 1
    ensures AllAffected(v, first + rest) == AllAffected(AllAffected(v, first), rest)
  {
    if first == [] {
      assert first + rest == rest;
    } else {
      assert (first + rest)[1..] == rest;
      assert AllAffected(v, first) == Affected(v, first[0]);
    }
  }
}
