/** The limits on what a render creates (internal/vtl/limits.go:15-41). */
module Limits {
  const MAX_ALLOC_BYTES: nat := 64 * 1024 * 1024
  const MAX_IN_FLIGHT_BYTES: nat := 2 * MAX_ALLOC_BYTES
  const SLOT_BYTES: nat := 64

  /** The longest output of a render, and the longest string value. */
  const MAX_OUTPUT_BYTES: nat := 10 * 1024 * 1024
}

/**
 Memory accounting (internal/vtl/limits.go:46-90): the budget of one render, and the pool that the
 budgets of all renders running at once add to.
 */
module Budgets {
  import opened Limits

  /** What all renders running now have charged. */
  class Pool {
    var inFlight: int

    constructor ()
      ensures inFlight == 0
    {
      inFlight := 0;
    }
  }

  /** The bytes one render has created; a shared budget counts toward the pool. */
  class Budget {
    const pool: Pool
    const shared: bool
    var used: int

    constructor (pool: Pool, shared: bool)
      ensures this.pool == pool && this.shared == shared && used == 0
    {
      this.pool, this.shared := pool, shared;
      used := 0;
    }

    /** The render's own limit or the limit of all of them is exceeded. */
    predicate Over(more: nat)
      reads this, pool
    {
      used + more > MAX_ALLOC_BYTES || (shared && pool.inFlight + more > MAX_IN_FLIGHT_BYTES)
    }

    method Check(n: nat) returns (ok: bool)
      ensures ok <==> !Over(n)
    {
      ok := !(used + n > MAX_ALLOC_BYTES || (shared && pool.inFlight + n > MAX_IN_FLIGHT_BYTES));
    }

    /** Adds first and fails afterwards: what a failed charge added stays until release. */
    method Charge(n: nat) returns (ok: bool)
      modifies this`used, pool
      ensures used == old(used) + n
      ensures pool.inFlight == old(pool.inFlight) + if shared then n else 0
      ensures ok <==> !Over(0)
    {
      used := used + n;
      var inFlight := 0;
      if shared {
        pool.inFlight := pool.inFlight + n;
        inFlight := pool.inFlight;
      }
      ok := !(used > MAX_ALLOC_BYTES || inFlight > MAX_IN_FLIGHT_BYTES);
    }

    method Release()
      modifies pool
      ensures pool.inFlight == old(pool.inFlight) - if shared then used else 0
    {
      if shared { pool.inFlight := pool.inFlight - used; }
    }
  }
}

/** Renders running at once, whose charges and releases interleave at their atomic steps. */
module Renders {
  import opened Limits

  /**
   A render with a shared budget: at work, with n bytes added to its own count but not yet to the
   pool's, or released. failed says whether the last charge that was completed failed.
   */
  datatype Phase = Working | Adding(n: nat) | Ended

  datatype Render = Render(used: nat, phase: Phase, failed: bool)

  datatype World = World(inFlight: int, renders: seq<Render>)

  datatype Step = Start | AddLocal(r: nat, n: nat) | AddGlobal(r: nat) | Release(r: nat)

  predicate Enabled(w: World, step: Step) {
    match step
    case Start => true
    case AddLocal(r, _) => r < |w.renders| && w.renders[r].phase.Working?
    case AddGlobal(r) => r < |w.renders| && w.renders[r].phase.Adding?
    case Release(r) => r < |w.renders| && w.renders[r].phase.Working?
  }

  /** A charge ends with adding to the pool, and fails by what it then finds. */
  function Completed(r: Render, inFlight: int): Render {
    Render(r.used, Working, r.used > MAX_ALLOC_BYTES || inFlight > MAX_IN_FLIGHT_BYTES)
  }

  function Apply(w: World, step: Step): World
    requires Enabled(w, step)
  {
    match step
    case Start => w.(renders := w.renders + [Render(0, Working, false)])
    case AddLocal(i, n) =>
      var r := w.renders[i];
      w.(renders := w.renders[i := r.(used := r.used + n, phase := Adding(n))])
    case AddGlobal(i) =>
      var inFlight := w.inFlight + w.renders[i].phase.n;
      World(inFlight, w.renders[i := Completed(w.renders[i], inFlight)])
    case Release(i) => World(w.inFlight - w.renders[i].used, w.renders[i := w.renders[i].(phase := Ended)])
  }

  /** What a render has in the pool. */
  function Held(r: Render): int {
    match r.phase
    case Working => r.used
    case Adding(n) => r.used - n
    case Ended => 0
  }

  /** What it has there while its last charge has not failed. */
  function HeldFairly(r: Render): int { if r.failed then 0 else Held(r) }

  function TotalHeld(renders: seq<Render>): int {
    if renders == [] then 0 else TotalHeld(renders[..|renders| - 1]) + Held(renders[|renders| - 1])
  }

  function FairlyHeld(renders: seq<Render>): int {
    if renders == [] then 0 else FairlyHeld(renders[..|renders| - 1]) + HeldFairly(renders[|renders| - 1])
  }

  /** The bytes of the renders not yet released. */
  function LiveUsed(renders: seq<Render>): int {
    if renders == [] then 0
    else
      var last := renders[|renders| - 1];
      LiveUsed(renders[..|renders| - 1]) + if last.phase.Ended? then 0 else last.used
  }

  lemma {:induction false} HeldUpdate(renders: seq<Render>, i: nat, r: Render)
    requires i < |renders|
    ensures TotalHeld(renders[i := r]) == TotalHeld(renders) - Held(renders[i]) + Held(r)
    ensures FairlyHeld(renders[i := r]) == FairlyHeld(renders) - HeldFairly(renders[i]) + HeldFairly(r)
  {
    var n := |renders| - 1;
    hide Held, HeldFairly;
    if i < n {
      assert renders[i := r][..n] == renders[..n][i := r];
      HeldUpdate(renders[..n], i, r);
    } else {
      assert renders[i := r][..n] == renders[..n];
    }
  }

  predicate Sound(renders: seq<Render>) { forall r <- renders :: r.phase.Adding? ==> r.phase.n <= r.used }

  lemma {:induction false} FairIsPart(renders: seq<Render>)
    requires Sound(renders)
    ensures FairlyHeld(renders) <= TotalHeld(renders)
  {
    if renders != [] {
      FairIsPart(renders[..|renders| - 1]);
      assert renders[|renders| - 1] in renders;
    }
  }

  /**
   The pool is what the renders hold; those whose last charge has not failed hold together no more than
   the limit of all, and each of them no more than its own.
   */
  ghost predicate Inv(w: World) {
    && Sound(w.renders)
    && w.inFlight == TotalHeld(w.renders)
    && FairlyHeld(w.renders) <= MAX_IN_FLIGHT_BYTES
    && (forall r <- w.renders :: !r.failed ==> Held(r) <= MAX_ALLOC_BYTES)
  }

  lemma StepKeepsInv(w: World, step: Step)
    requires Enabled(w, step) && Inv(w)
    ensures Inv(Apply(w, step))
  {
    var v := Apply(w, step);
    match step {
      case Start => assert v.renders[..|w.renders|] == w.renders;
      case _ =>
        var was, r := w.renders[step.r], v.renders[step.r];
        HeldUpdate(w.renders, step.r, r);
        assert was in w.renders;
        assert Sound(v.renders) by {
          forall x | x in v.renders ensures x.phase.Adding? ==> x.phase.n <= x.used { assert x == r || x in w.renders; }
        }
        forall x | x in v.renders ensures !x.failed ==> Held(x) <= MAX_ALLOC_BYTES { assert x == r || x in w.renders; }
        FairIsPart(v.renders);
        hide TotalHeld, FairlyHeld, Sound;
    }
  }

  lemma {:induction false} QuietHoldsUsed(renders: seq<Render>)
    requires forall r <- renders :: !r.phase.Adding?
    ensures TotalHeld(renders) == LiveUsed(renders)
  {
    if renders != [] {
      QuietHoldsUsed(renders[..|renders| - 1]);
      assert renders[|renders| - 1] in renders;
    }
  }

  lemma {:induction false} NoneLive(renders: seq<Render>)
    requires forall r <- renders :: r.phase.Ended?
    ensures LiveUsed(renders) == 0
  {
    if renders != [] {
      NoneLive(renders[..|renders| - 1]);
      assert renders[|renders| - 1] in renders;
    }
  }

  lemma {:induction false} AllFair(renders: seq<Render>)
    requires forall r <- renders :: r.failed ==> r.phase.Ended?
    ensures FairlyHeld(renders) == TotalHeld(renders)
  {
    if renders != [] {
      AllFair(renders[..|renders| - 1]);
      assert renders[|renders| - 1] in renders;
    }
  }

  /** The steps can be taken one after the other, starting from an empty pool without renders. */
  predicate Possible(steps: seq<Step>)
    decreases |steps|, 0
  {
    var n := |steps|;
    n > 0 ==> Possible(steps[..n - 1]) && Enabled(After(steps[..n - 1]), steps[n - 1])
  }

  function After(steps: seq<Step>): World
    requires Possible(steps)
    decreases |steps|, 1
  {
    var n := |steps|;
    if n == 0 then World(0, []) else Apply(After(steps[..n - 1]), steps[n - 1])
  }

  lemma {:induction false} RunKeepsInv(steps: seq<Step>)
    requires Possible(steps)
    ensures Inv(After(steps))
  {
    var n := |steps|;
    if n > 0 {
      RunKeepsInv(steps[..n - 1]);
      StepKeepsInv(After(steps[..n - 1]), steps[n - 1]);
    }
  }

  /**
   In every interleaving, whether charges failed or not: with no render between its two additions, the
   pool holds exactly what the live renders have used, and nothing once all have been released.
   */
  lemma PoolIsConserved(steps: seq<Step>)
    requires Possible(steps)
    ensures var w := After(steps);
      && w.inFlight == TotalHeld(w.renders)
      && ((forall r <- w.renders :: !r.phase.Adding?) ==> w.inFlight == LiveUsed(w.renders))
      && ((forall r <- w.renders :: r.phase.Ended?) ==> w.inFlight == 0)
  {
    RunKeepsInv(steps);
    var w := After(steps);
    hide After, Possible;
    if forall r <- w.renders :: !r.phase.Adding? { QuietHoldsUsed(w.renders); }
    if forall r <- w.renders :: r.phase.Ended? { NoneLive(w.renders); }
  }

  /**
   In every interleaving, the renders whose last charge did not fail hold together no more than the limit
   of the pool; while no live render has a failed charge, that is all there is in the pool.
   */
  lemma PoolIsCapped(steps: seq<Step>)
    requires Possible(steps)
    ensures var w := After(steps);
      && FairlyHeld(w.renders) <= MAX_IN_FLIGHT_BYTES
      && ((forall r <- w.renders :: r.failed ==> r.phase.Ended?) ==> w.inFlight <= MAX_IN_FLIGHT_BYTES)
      && (forall r <- w.renders :: r.phase.Working? && !r.failed ==> r.used <= MAX_ALLOC_BYTES)
  {
    RunKeepsInv(steps);
    var w := After(steps);
    hide After, Possible;
    if forall r <- w.renders :: r.failed ==> r.phase.Ended? { AllFair(w.renders); }
  }
}
