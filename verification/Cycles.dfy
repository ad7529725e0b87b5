/**
 Exactly when formatting succeeds, on any store with sharing and cycles: encoding fails for a
 cycle only if one is reachable, and never gets past one.
 */
module Cycles {
  import opened Common
  import opened Limits
  import opened Values
  import opened Format

  /** A walk from a collection into what it holds. */
  predicate IsPath(h: Heap, p: seq<Value>) {
    p != [] && forall i :: 0 <= i < |p| - 1 ==> p[i + 1] in Children(h, p[i])
  }

  ghost predicate Reaches(h: Heap, v: Value, x: Value) {
    exists p :: IsPath(h, p) && p[0] == v && p[|p| - 1] == x
  }

  /** x contains itself, directly or through others. */
  ghost predicate OnCycle(h: Heap, x: Value) {
    exists p :: IsPath(h, p) && |p| > 1 && p[0] == x && p[|p| - 1] == x
  }

  ghost predicate ReachesCycle(h: Heap, v: Value) {
    exists x :: Reaches(h, v, x) && OnCycle(h, x)
  }

  predicate AllRefs(p: seq<Value>) { forall x <- p :: IsRef(x) }

  /** Some chain of collections nested in one another from v on is longer than n. */
  ghost predicate NestsBeyond(h: Heap, v: Value, n: nat) {
    exists p :: IsPath(h, p) && p[0] == v && AllRefs(p) && |p| > n
  }

  // ---- What success implies

  lemma {:induction false} ChildAccepted(lib: Library, mode: Mode, h: Heap, v: Value, i: nat, k: nat, depth: nat,
                                         inside: set<Value>)
    requires i <= k < |Children(h, v)| && depth < MAX_VALUE_DEPTH
    requires VisitChildren(lib, mode, h, v, i, depth, inside).stop.None?
    ensures Visit(lib, mode, h, Children(h, v)[k], depth + 1, inside).stop.None?
    decreases k - i
  {
    if i < k { ChildAccepted(lib, mode, h, v, i + 1, k, depth, inside); }
  }

  lemma BodyAccepted(lib: Library, mode: Mode, h: Heap, v: Value, depth: nat, inside: set<Value>)
    requires depth <= MAX_VALUE_DEPTH && IsRef(v) && v !in inside
    requires Visit(lib, mode, h, v, depth, inside).stop.None?
    ensures depth < MAX_VALUE_DEPTH
    ensures VisitChildren(lib, mode, h, v, 0, depth, inside + {v}).stop.None?
  {
  }

  /** No walk from an encoded value meets a collection twice, or one it is already inside. */
  lemma {:induction false} WalksAreSimple(lib: Library, h: Heap, p: seq<Value>, depth: nat, inside: set<Value>)
    requires IsPath(h, p) && depth <= MAX_VALUE_DEPTH
    requires Visit(lib, Json, h, p[0], depth, inside).stop.None?
    ensures forall i :: 0 <= i < |p| && IsRef(p[i]) ==> p[i] !in inside
    ensures forall i, j :: 0 <= i < j < |p| ==> p[i] != p[j]
    ensures AllRefs(p) ==> depth + |p| <= MAX_VALUE_DEPTH
    decreases |p|
  {
    if |p| > 1 {
      assert p[0 + 1] in Children(h, p[0]);
      BodyAccepted(lib, Json, h, p[0], depth, inside);
      var k :| 0 <= k < |Children(h, p[0])| && Children(h, p[0])[k] == p[1];
      ChildAccepted(lib, Json, h, p[0], 0, k, depth, inside + {p[0]});
      var tail := p[1..];
      WalksAreSimple(lib, h, tail, depth + 1, inside + {p[0]});
      forall i, j | 0 <= i < j < |p|
        ensures p[i] != p[j]
      {
        assert p[j] == tail[j - 1];
        if i > 0 { assert p[i] == tail[i - 1]; }
      }
      forall i | 1 <= i < |p| && IsRef(p[i])
        ensures p[i] !in inside
      {
        assert p[i] == tail[i - 1];
      }
      if AllRefs(p) { assert forall x <- tail :: x in p; }
    } else {
      assert AllRefs(p) ==> p[0] in p;
    }
  }

  // ---- What failure implies

  /** The child at which formatting the children of v stops. */
  lemma {:induction false} StoppedChild(lib: Library, mode: Mode, h: Heap, v: Value, i: nat, depth: nat,
                                        inside: set<Value>)
    returns (k: nat)
    requires i <= |Children(h, v)| && depth < MAX_VALUE_DEPTH
    requires VisitChildren(lib, mode, h, v, i, depth, inside).stop.Some?
    ensures k < |Children(h, v)|
    ensures Visit(lib, mode, h, Children(h, v)[k], depth + 1, inside).stop
         == VisitChildren(lib, mode, h, v, i, depth, inside).stop
    decreases |Children(h, v)| - i
  {
    if Visit(lib, mode, h, Children(h, v)[i], depth + 1, inside).stop.Some? {
      k := i;
    } else {
      k := StoppedChild(lib, mode, h, v, i + 1, depth, inside);
    }
  }

  /** The walk along which formatting v went when it stopped. */
  lemma {:induction false} StoppedWalk(lib: Library, mode: Mode, h: Heap, v: Value, depth: nat, inside: set<Value>)
    returns (p: seq<Value>)
    requires depth <= MAX_VALUE_DEPTH
    requires Visit(lib, mode, h, v, depth, inside).stop.Some?
    ensures IsPath(h, p) && p[0] == v && AllRefs(p)
    ensures Visit(lib, mode, h, v, depth, inside).stop == Some(TooDeep) ==> depth + |p| == MAX_VALUE_DEPTH + 1
    ensures Visit(lib, mode, h, v, depth, inside).stop == Some(Cyclic) ==>
      mode.Json? && (p[|p| - 1] in inside || exists i :: 0 <= i < |p| - 1 && p[i] == p[|p| - 1])
    decreases MAX_VALUE_DEPTH - depth
  {
    if depth == MAX_VALUE_DEPTH || v in inside {
      p := [v];
    } else {
      var k := StoppedChild(lib, mode, h, v, 0, depth, inside + {v});
      var q := StoppedWalk(lib, mode, h, Children(h, v)[k], depth + 1, inside + {v});
      p := [v] + q;
      assert p[|p| - 1] == q[|q| - 1];
      forall i | 0 <= i < |p| - 1
        ensures p[i + 1] in Children(h, p[i])
      {
        if i > 0 { assert p[i] == q[i - 1] && p[i + 1] == q[i]; }
      }
      if Visit(lib, mode, h, v, depth, inside).stop == Some(Cyclic) && p[|p| - 1] !in inside {
        if q[|q| - 1] == v {
          assert p[0] == p[|p| - 1];
        } else {
          var i :| 0 <= i < |q| - 1 && q[i] == q[|q| - 1];
          assert p[i + 1] == p[|p| - 1];
        }
      }
    }
  }

  /** A walk that comes back to a collection it went through reaches a cycle. */
  lemma RepeatIsCycle(h: Heap, p: seq<Value>, i: nat)
    requires IsPath(h, p) && i < |p| - 1 && p[i] == p[|p| - 1]
    ensures ReachesCycle(h, p[0])
  {
    var x := p[|p| - 1];
    assert IsPath(h, p);
    assert Reaches(h, p[0], x);
    var loop := p[i..];
    assert loop[0] == x && loop[|loop| - 1] == x;
    forall j | 0 <= j < |loop| - 1 ensures loop[j + 1] in Children(h, loop[j]) {
      assert loop[j] == p[i + j] && loop[j + 1] == p[i + j + 1];
    }
    assert IsPath(h, loop);
    assert OnCycle(h, x);
  }

  /** Two walks meeting make one walk. */
  lemma JoinPaths(h: Heap, p: seq<Value>, q: seq<Value>)
    requires IsPath(h, p) && IsPath(h, q) && p[|p| - 1] == q[0]
    ensures IsPath(h, p + q[1..])
  {
    var r := p + q[1..];
    forall i | 0 <= i < |r| - 1
      ensures r[i + 1] in Children(h, r[i])
    {
      if i + 1 < |p| {
        assert r[i] == p[i] && r[i + 1] == p[i + 1];
      } else {
        var j := i + 1 - |p|;
        assert r[i + 1] == q[j + 1];
        assert r[i] == q[j];
        assert q[j + 1] in Children(h, q[j]);
      }
    }
  }

  lemma AcceptedHasNoCycle(lib: Library, h: Heap, v: Value)
    requires Visit(lib, Json, h, v, 0, {}).stop.None?
    ensures !ReachesCycle(h, v) && !NestsBeyond(h, v, MAX_VALUE_DEPTH)
  {
    hide Visit;
    if ReachesCycle(h, v) {
      var x :| Reaches(h, v, x) && OnCycle(h, x);
      var p :| IsPath(h, p) && p[0] == v && p[|p| - 1] == x;
      var q :| IsPath(h, q) && |q| > 1 && q[0] == x && q[|q| - 1] == x;
      JoinPaths(h, p, q);
      var r := p + q[1..];
      assert r[|p| - 1] == x && r[|r| - 1] == x;
      WalksAreSimple(lib, h, r, 0, {});
      assert false;
    }
    if NestsBeyond(h, v, MAX_VALUE_DEPTH) {
      var p :| IsPath(h, p) && p[0] == v && AllRefs(p) && |p| > MAX_VALUE_DEPTH;
      WalksAreSimple(lib, h, p, 0, {});
    }
  }

  // ---- The main results

  /**
   Without the size limit, encoding succeeds exactly for the values that reach no cycle and nest
   at most the permitted depth, and each failure has its cause. A shared part is no cycle.
   */
  lemma EncodableExactly(lib: Library, h: Heap, v: Value)
    ensures var stop := Visit(lib, Json, h, v, 0, {}).stop;
            && (stop.None? <==> !ReachesCycle(h, v) && !NestsBeyond(h, v, MAX_VALUE_DEPTH))
            && (stop == Some(Cyclic) ==> ReachesCycle(h, v))
            && (stop == Some(TooDeep) ==> NestsBeyond(h, v, MAX_VALUE_DEPTH))
  {
    hide Visit;
    var stop := Visit(lib, Json, h, v, 0, {}).stop;
    if stop.None? {
      AcceptedHasNoCycle(lib, h, v);
    } else {
      var p := StoppedWalk(lib, Json, h, v, 0, {});
      if stop == Some(Cyclic) {
        var i :| 0 <= i < |p| - 1 && p[i] == p[|p| - 1];
        RepeatIsCycle(h, p, i);
      } else {
        assert stop.value.TooDeep?;
        assert |p| > MAX_VALUE_DEPTH;
      }
    }
  }

  /**
   ToJSON, limits included: ErrCyclicValue only for a value that reaches a cycle, no result for
   such a value, and when no limit is hit, the error exactly for those values.
   */
  lemma ToJsonDetectsCycles(lib: Library, h: Heap, v: Value)
    ensures JsonText(lib, h, v) == Err(CyclicValue) ==> ReachesCycle(h, v)
    ensures JsonText(lib, h, v).Ok? ==> !ReachesCycle(h, v)
    ensures JsonText(lib, h, v) != Err(OutputLimit) && JsonText(lib, h, v) != Err(DepthLimit) ==>
      (JsonText(lib, h, v) == Err(CyclicValue) <==> ReachesCycle(h, v))
    ensures JsonText(lib, h, v).Ok? ==> |JsonText(lib, h, v).value| <= MAX_OUTPUT_BYTES
  {
    hide Visit, ReachesCycle, NestsBeyond;
    EncodableExactly(lib, h, v);
  }

  /** p goes into collections only, none of them twice until its end. */
  predicate EntersOnce(p: seq<Value>, inside: set<Value>) {
    && AllRefs(p)
    && (forall i :: 0 <= i < |p| - 1 ==> p[i] !in inside)
    && (forall i, j :: 0 <= i < j < |p| - 1 ==> p[i] != p[j])
  }

  lemma EntersOnceMore(v: Value, q: seq<Value>, inside: set<Value>)
    requires EntersOnce(q, inside + {v}) && IsRef(v) && v !in inside
    ensures EntersOnce([v] + q, inside)
  {
    var p := [v] + q;
    assert forall i :: 1 <= i < |p| ==> p[i] == q[i - 1];
  }

  lemma EntersRest(p: seq<Value>, inside: set<Value>)
    requires EntersOnce(p, inside) && |p| > 1
    ensures EntersOnce(p[1..], inside + {p[0]})
  {
    var q := p[1..];
    assert forall i :: 0 <= i < |q| ==> q[i] == p[i + 1];
  }

  /** The collections printing has entered when it stops for depth. */
  lemma {:induction false} PrintedWalk(lib: Library, h: Heap, v: Value, depth: nat, inside: set<Value>)
    returns (p: seq<Value>)
    requires depth <= MAX_VALUE_DEPTH && Visit(lib, Plain, h, v, depth, inside).stop.Some?
    ensures IsPath(h, p) && p[0] == v && EntersOnce(p, inside) && depth + |p| == MAX_VALUE_DEPTH + 1
    decreases MAX_VALUE_DEPTH - depth
  {
    if depth == MAX_VALUE_DEPTH {
      p := [v];
    } else {
      var k := StoppedChild(lib, Plain, h, v, 0, depth, inside + {v});
      var q := PrintedWalk(lib, h, Children(h, v)[k], depth + 1, inside + {v});
      p := [v] + q;
      hide Visit, VisitChildren, EntersOnce;
      EntersOnceMore(v, q, inside);
      PathFrom(h, v, q);
    }
  }

  lemma PathFrom(h: Heap, v: Value, q: seq<Value>)
    requires IsPath(h, q) && q[0] in Children(h, v)
    ensures IsPath(h, [v] + q)
  {
    var p := [v] + q;
    forall i | 0 <= i < |p| - 1 ensures p[i + 1] in Children(h, p[i]) {
      if i > 0 { assert p[i] == q[i - 1] && p[i + 1] == q[i]; }
    }
  }

  lemma {:induction false} PrintedHasRoom(lib: Library, h: Heap, p: seq<Value>, depth: nat, inside: set<Value>)
    requires IsPath(h, p) && EntersOnce(p, inside) && depth <= MAX_VALUE_DEPTH
    requires Visit(lib, Plain, h, p[0], depth, inside).stop.None?
    ensures depth + |p| <= MAX_VALUE_DEPTH
    decreases |p|
  {
    assert p[0] in p;
    if |p| > 1 {
      assert p[0 + 1] in Children(h, p[0]);
      BodyAccepted(lib, Plain, h, p[0], depth, inside);
      var k :| 0 <= k < |Children(h, p[0])| && Children(h, p[0])[k] == p[1];
      ChildAccepted(lib, Plain, h, p[0], 0, k, depth, inside + {p[0]});
      EntersRest(p, inside);
      hide Visit, VisitChildren, EntersOnce;
      PrintedHasRoom(lib, h, p[1..], depth + 1, inside + {p[0]});
    }
  }

  /** Some walk into collections, none twice until its end, is longer than n. */
  ghost predicate EntersBeyond(h: Heap, v: Value, n: nat) {
    exists p :: IsPath(h, p) && p[0] == v && EntersOnce(p, {}) && |p| > n
  }

  /**
   Printing never fails for a cycle, only for depth, and for that exactly when a walk that enters no collection
   twice goes deeper than the limit.
   */
  lemma PrintingTakesCycles(lib: Library, h: Heap, v: Value)
    ensures Visit(lib, Plain, h, v, 0, {}).stop != Some(Cyclic)
    ensures Visit(lib, Plain, h, v, 0, {}).stop == Some(TooDeep) <==> EntersBeyond(h, v, MAX_VALUE_DEPTH)
  {
    hide Visit, EntersOnce;
    if Visit(lib, Plain, h, v, 0, {}).stop.Some? {
      var p := PrintedWalk(lib, h, v, 0, {});
      assert |p| > MAX_VALUE_DEPTH;
      assert EntersBeyond(h, v, MAX_VALUE_DEPTH);
      var q := StoppedWalk(lib, Plain, h, v, 0, {});
      assert Visit(lib, Plain, h, v, 0, {}).stop.value.TooDeep?;
    } else if EntersBeyond(h, v, MAX_VALUE_DEPTH) {
      var p :| IsPath(h, p) && p[0] == v && EntersOnce(p, {}) && |p| > MAX_VALUE_DEPTH;
      PrintedHasRoom(lib, h, p, 0, {});
    }
  }

  // ---- Rings

  /** n lists, each holding the next, and the last the first. */
  function Ring(n: nat): Heap {
    seq(n, i requires 0 <= i < n => ListCell([ListRef(if i + 1 == n then 0 else i + 1)]))
  }

  lemma RingNext(n: nat, i: nat)
    requires i < n
    ensures Children(Ring(n), ListRef(i)) == [ListRef(if i + 1 == n then 0 else i + 1)]
  {
  }

  /** The walk around a ring, once and then back at its start. */
  function Around(n: nat): seq<Value> { seq(n + 1, i requires 0 <= i <= n => ListRef(if i == n then 0 else i)) }

  lemma AroundIsPath(n: nat)
    requires n > 0
    ensures IsPath(Ring(n), Around(n)) && EntersOnce(Around(n), {})
  {
    var p := Around(n);
    forall i | 0 <= i < |p| - 1 ensures p[i + 1] in Children(Ring(n), p[i]) { RingNext(n, i); }
  }

  /** Every walk from the first list goes around. */
  lemma {:induction false} RingWalk(n: nat, p: seq<Value>, i: nat)
    requires 0 < n && IsPath(Ring(n), p) && p[0] == ListRef(0) && i < |p| && i <= n
    ensures p[i] == ListRef(if i == n then 0 else i)
    decreases i
  {
    if i > 0 {
      RingWalk(n, p, i - 1);
      RingNext(n, i - 1);
      assert p[(i - 1) + 1] in Children(Ring(n), p[i - 1]);
    }
  }

  lemma RingReachesCycle(n: nat)
    requires n > 0
    ensures ReachesCycle(Ring(n), ListRef(0))
  {
    var h, v := Ring(n), ListRef(0);
    AroundIsPath(n);
    var p := Around(n);
    assert p[0] == v && p[|p| - 1] == v;
    hide Ring, Around;
    assert OnCycle(h, v);
    assert IsPath(h, [v]) && [v][0] == v && [v][|[v]| - 1] == v;
    assert Reaches(h, v, v);
  }

  lemma RingEnters(n: nat)
    requires n > 0
    ensures EntersBeyond(Ring(n), ListRef(0), MAX_VALUE_DEPTH) <==> n >= MAX_VALUE_DEPTH
  {
    var h, v, p := Ring(n), ListRef(0), Around(n);
    AroundIsPath(n);
    assert p[0] == v && |p| == n + 1;
    hide Ring, Around, IsPath, AllRefs;
    if n >= MAX_VALUE_DEPTH {
      assert EntersBeyond(h, v, MAX_VALUE_DEPTH);
    } else if EntersBeyond(h, v, MAX_VALUE_DEPTH) {
      var q :| IsPath(h, q) && q[0] == v && EntersOnce(q, {}) && |q| > MAX_VALUE_DEPTH;
      RingWalk(n, q, n);
      assert false;
    }
  }

  /** A ring of lists contains itself, and printing it fails exactly when it has a thousand lists or more. */
  lemma RingsPrintUpToTheLimit(lib: Library, n: nat)
    requires n > 0
    ensures ReachesCycle(Ring(n), ListRef(0))
    ensures var stop := Visit(lib, Plain, Ring(n), ListRef(0), 0, {}).stop;
      (stop == Some(TooDeep) <==> n >= MAX_VALUE_DEPTH) && (stop.None? <==> n < MAX_VALUE_DEPTH)
  {
    hide Visit, Ring, ReachesCycle, EntersBeyond;
    RingReachesCycle(n);
    RingEnters(n);
    PrintingTakesCycles(lib, Ring(n), ListRef(0));
    match Visit(lib, Plain, Ring(n), ListRef(0), 0, {}).stop {
      case None =>
      case Some(TooDeep) =>
      case Some(Cyclic) =>
    }
  }
}
