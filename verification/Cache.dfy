/**
 The cache of parsed templates (internal/vtl/cache.go): what it holds, what it lets go, and what its
 callers get while its two critical sections interleave.
 */
module Caches {
  import opened Common
  import opened Ast
  import opened Grammar

  const AST_BYTES_PER_SOURCE_BYTE: nat := 20
  const ENTRY_OVERHEAD: nat := 1024

  /** A template, or the error parsing it gave. */
  type Parsed = Result<seq<Node>, Fault>

  datatype CacheEntry = CacheEntry(src: string, parsed: Parsed, weight: nat)

  function Weight(src: string): nat { |src| * AST_BYTES_PER_SOURCE_BYTE + ENTRY_OVERHEAD }

  function NewEntry(src: string, parsed: Parsed): CacheEntry { CacheEntry(src, parsed, Weight(src)) }

  // ---- The entries, most recent first

  function Total(order: seq<CacheEntry>): nat {
    if order == [] then 0 else Total(order[..|order| - 1]) + order[|order| - 1].weight
  }

  function Sources(order: seq<CacheEntry>): set<string> { set i | 0 <= i < |order| :: order[i].src }

  /** Where a source's entry is, at the end if nowhere. */
  function Position(order: seq<CacheEntry>, src: string): (i: nat)
    ensures i <= |order|
    ensures i < |order| ==> order[i].src == src
    ensures i == |order| ==> src !in Sources(order)
  {
    if order == [] then 0
    else if order[0].src == src then 0
    else
      assert forall e <- order :: e == order[0] || e in order[1..];
      1 + Position(order[1..], src)
  }

  function MovedToFront(order: seq<CacheEntry>, i: nat): seq<CacheEntry>
    requires i < |order|
  {
    [order[i]] + order[..i] + order[i + 1..]
  }

  /** What is left after letting go of the oldest entries until the rest fits. */
  function Kept(order: seq<CacheEntry>, maxBytes: int): seq<CacheEntry> {
    if order == [] || Total(order) <= maxBytes then order else Kept(order[..|order| - 1], maxBytes)
  }

  /** The second critical section: a new entry, unless there is one already or it is too heavy. */
  function Inserted(order: seq<CacheEntry>, src: string, parsed: Parsed, maxBytes: int): seq<CacheEntry> {
    if src in Sources(order) || Weight(src) > maxBytes then order
    else Kept([NewEntry(src, parsed)] + order, maxBytes)
  }

  // ---- Eviction

  lemma {:induction false} TotalOfPrefix(order: seq<CacheEntry>, n: nat)
    requires n <= |order|
    ensures Total(order[..n]) <= Total(order)
  {
    if n < |order| {
      TotalOfPrefix(order[..|order| - 1], n);
      assert order[..|order| - 1][..n] == order[..n];
    } else {
      assert order[..n] == order;
    }
  }

  /** Eviction keeps the longest prefix of the most recent entries that fits, and the first when it fits. */
  lemma {:induction false} KeptIsLongestFitting(order: seq<CacheEntry>, maxBytes: int, n: nat)
    requires n <= |order|
    ensures Kept(order, maxBytes) <= order
    ensures Kept(order, maxBytes) != [] ==> Total(Kept(order, maxBytes)) <= maxBytes
    ensures n > 0 && Total(order[..n]) <= maxBytes ==> n <= |Kept(order, maxBytes)|
  {
    if order != [] && Total(order) > maxBytes {
      var init := order[..|order| - 1];
      KeptIsLongestFitting(init, maxBytes, if n < |order| then n else 0);
      if n < |order| {
        assert init[..n] == order[..n];
      } else {
        assert order[..n] == order;
      }
    }
  }

  // ---- What the cache keeps

  /** One entry a source, each with its weight and what parsing gives; in all within the limit. */
  ghost predicate Good(order: seq<CacheEntry>, maxBytes: int) {
    && (forall i, j :: 0 <= i < j < |order| ==> order[i].src != order[j].src)
    && (forall i :: 0 <= i < |order| ==> order[i] == NewEntry(order[i].src, Template(order[i].src)))
    && (order != [] ==> Total(order) <= maxBytes)
  }

  lemma {:induction false} TotalAppend(a: seq<CacheEntry>, b: seq<CacheEntry>)
    ensures Total(a + b) == Total(a) + Total(b)
  {
    if b == [] {
      assert a + b == a;
    } else {
      var n := |b| - 1;
      assert (a + b)[..|a| + n] == a + b[..n];
      TotalAppend(a, b[..n]);
    }
  }

  lemma TotalOfParts(a: seq<CacheEntry>, b: seq<CacheEntry>, c: seq<CacheEntry>)
    ensures Total(a + b + c) == Total(a) + Total(b) + Total(c)
  {
    hide Total;
    TotalAppend(a + b, c);
    TotalAppend(a, b);
  }

  lemma MovedTotal(order: seq<CacheEntry>, i: nat)
    requires i < |order|
    ensures Total(MovedToFront(order, i)) == Total(order)
  {
    hide Total;
    assert order == order[..i] + [order[i]] + order[i + 1..];
    TotalOfParts(order[..i], [order[i]], order[i + 1..]);
    TotalOfParts([order[i]], order[..i], order[i + 1..]);
  }

  /** Where the entry at a place of the moved list was before. */
  function Before(i: nat, k: nat): nat { if k == 0 then i else if k <= i then k - 1 else k }

  lemma MovedAt(order: seq<CacheEntry>, i: nat, k: nat)
    requires i < |order| && k < |order|
    ensures |MovedToFront(order, i)| == |order| && MovedToFront(order, i)[k] == order[Before(i, k)]
  {
  }

  lemma MovedStaysGood(order: seq<CacheEntry>, i: nat, maxBytes: int)
    requires Good(order, maxBytes) && i < |order|
    ensures Good(MovedToFront(order, i), maxBytes)
  {
    var moved := MovedToFront(order, i);
    MovedTotal(order, i);
    hide Template, Total, MovedToFront;
    MovedAt(order, i, 0);
    forall k | 0 <= k < |moved|
      ensures moved[k] == NewEntry(moved[k].src, Template(moved[k].src))
    {
      MovedAt(order, i, k);
    }
    forall j, k | 0 <= j < k < |moved| ensures moved[j].src != moved[k].src {
      MovedAt(order, i, j);
      MovedAt(order, i, k);
      assert Before(i, j) != Before(i, k);
    }
  }

  lemma MovedSources(order: seq<CacheEntry>, i: nat)
    requires i < |order|
    ensures Sources(MovedToFront(order, i)) == Sources(order)
  {
    var moved := MovedToFront(order, i);
    forall k | 0 <= k < |order| ensures moved[k].src in Sources(order) && order[k].src in Sources(moved) {
      MovedAt(order, i, k);
      MovedAt(order, i, if k == i then 0 else if k < i then k + 1 else k);
    }
  }

  lemma InsertedStaysGood(order: seq<CacheEntry>, src: string, maxBytes: int)
    requires Good(order, maxBytes)
    ensures Good(Inserted(order, src, Template(src), maxBytes), maxBytes)
    ensures src !in Sources(order) && Weight(src) <= maxBytes ==>
      Inserted(order, src, Template(src), maxBytes) != [] && Inserted(order, src, Template(src), maxBytes)[0].src == src
  {
    hide Template, Total;
    if src !in Sources(order) && Weight(src) <= maxBytes {
      var e := NewEntry(src, Template(src));
      KeptIsLongestFitting([e] + order, maxBytes, 1);
      assert ([e] + order)[..1] == [e];
      TotalOne(e);
      assert forall k :: 0 <= k < |order| ==> order[k].src in Sources(order);
    }
  }

  lemma TotalOne(e: CacheEntry)
    ensures Total([e]) == e.weight
  {
    assert [e][..0] == [];
  }

  // ---- The cache

  class Cache {
    const maxBytes: int
    var bytes: int
    var order: seq<CacheEntry>
    var items: map<string, CacheEntry>

    constructor (maxBytes: int)
      ensures Valid() && this.maxBytes == maxBytes && order == []
    {
      this.maxBytes := maxBytes;
      bytes, order, items := 0, [], map[];
    }

    /** List and index hold the same entries, and bytes is what they weigh. */
    ghost predicate Valid()
      reads this
    {
      && Good(order, maxBytes)
      && bytes == Total(order)
      && Indexed(order, items)
    }

    /** The first critical section: a hit moves the entry to the front. */
    method Find(src: string) returns (parsed: Option<Parsed>)
      requires Valid()
      modifies this
      ensures Valid()
      ensures src in Sources(old(order)) ==>
        && parsed == Some(Template(src))
        && order == MovedToFront(old(order), Position(old(order), src))
      ensures src !in Sources(old(order)) ==> parsed == None && order == old(order)
    {
      hide Template, Total;
      if src !in items { return None; }
      var i := Position(order, src);
      MovedStaysGood(order, i, maxBytes);
      MovedTotal(order, i);
      MovedStaysIndexed(order, i, items);
      parsed := Some(items[src].parsed);
      order := MovedToFront(order, i);
    }

    /** The second critical section, with the result of parsing the source in between. */
    method Keep(src: string, parsed: Parsed)
      requires Valid() && parsed == Template(src)
      modifies this
      ensures Valid()
      ensures order == Inserted(old(order), src, parsed, maxBytes)
    {
      hide Template, Total;
      var w := Weight(src);
      if src in items || w > maxBytes { return; }
      InsertedStaysGood(order, src, maxBytes);
      var e := NewEntry(src, parsed);
      order, items, bytes := [e] + order, items[src := e], bytes + w;
      PushedIsIndexed(old(order), e, old(items));
      while bytes > maxBytes
        invariant Inserted(old(order), src, parsed, maxBytes) == Kept(order, maxBytes)
        invariant bytes == Total(order) && Distinct(order) && Indexed(order, items)
        decreases |order|
      {
        Dropping(order, items, maxBytes);
        var oldest := order[|order| - 1];
        order := order[..|order| - 1];
        items := items - {oldest.src};
        bytes := bytes - oldest.weight;
      }
    }

    /** Other callers may come between the two sections; the result is that of parsing all the same. */
    method Parse(src: string) returns (parsed: Parsed)
      requires Valid()
      modifies this
      ensures Valid() && parsed == Template(src)
    {
      hide Template;
      var hit := Find(src);
      if hit.Some? { return hit.value; }
      parsed := Template(src);
      Keep(src, parsed);
    }
  }

  ghost predicate Distinct(order: seq<CacheEntry>) {
    forall i, j :: 0 <= i < j < |order| ==> order[i].src != order[j].src
  }

  /** The index has exactly the entries of the list. */
  ghost predicate Indexed(order: seq<CacheEntry>, items: map<string, CacheEntry>) {
    && items.Keys == Sources(order)
    && forall i :: 0 <= i < |order| ==> items[order[i].src] == order[i]
  }

  lemma MovedStaysIndexed(order: seq<CacheEntry>, i: nat, items: map<string, CacheEntry>)
    requires i < |order| && Indexed(order, items)
    ensures Indexed(MovedToFront(order, i), items)
  {
    hide MovedToFront;
    MovedSources(order, i);
    MovedAt(order, i, 0);
    var moved := MovedToFront(order, i);
    forall k | 0 <= k < |moved| ensures moved[k].src in items && items[moved[k].src] == moved[k] {
      MovedAt(order, i, k);
    }
  }

  lemma PushedIsIndexed(order: seq<CacheEntry>, e: CacheEntry, items: map<string, CacheEntry>)
    requires Indexed(order, items) && Distinct(order) && e.src !in items
    ensures Indexed([e] + order, items[e.src := e]) && Distinct([e] + order)
    ensures Total([e] + order) == Total(order) + e.weight
  {
    TotalAppend([e], order);
    TotalOne(e);
    var more := [e] + order;
    forall s ensures s in Sources(more) <==> s == e.src || s in Sources(order) {
      if s == e.src { assert more[0].src == s; }
      if s in Sources(order) {
        var k :| 0 <= k < |order| && order[k].src == s;
        assert more[k + 1].src == s;
      }
    }
  }

  /** One round of the eviction loop. */
  lemma Dropping(order: seq<CacheEntry>, items: map<string, CacheEntry>, maxBytes: int)
    requires Indexed(order, items) && Distinct(order) && Total(order) > maxBytes
    ensures order != [] || maxBytes < 0
    ensures order != [] ==>
      var oldest, rest := order[|order| - 1], order[..|order| - 1];
      && Kept(order, maxBytes) == Kept(rest, maxBytes)
      && Total(rest) == Total(order) - oldest.weight
      && Distinct(rest) && Indexed(rest, items - {oldest.src})
  {
  }

  // ---- Callers at once

  /** A caller before its first critical section, between the two, or back with a result. */
  datatype Caller = Arrived(src: string) | Parsing(src: string) | Back(src: string, parsed: Parsed)

  /** The state of the cache between critical sections, and its callers. */
  datatype World = World(maxBytes: int, order: seq<CacheEntry>, callers: seq<Caller>)

  datatype Step = Arrive(src: string) | First(c: nat) | Second(c: nat)

  predicate Enabled(w: World, step: Step) {
    match step
    case Arrive(_) => true
    case First(c) => c < |w.callers| && w.callers[c].Arrived?
    case Second(c) => c < |w.callers| && w.callers[c].Parsing?
  }

  function Apply(w: World, step: Step): World
    requires Enabled(w, step)
  {
    match step
    case Arrive(src) => w.(callers := w.callers + [Arrived(src)])
    case First(c) =>
      var src := w.callers[c].src;
      var i := Position(w.order, src);
      if i == |w.order| then w.(callers := w.callers[c := Parsing(src)])
      else w.(order := MovedToFront(w.order, i), callers := w.callers[c := Back(src, w.order[i].parsed)])
    case Second(c) =>
      var src := w.callers[c].src;
      var parsed := Template(src);
      w.(order := Inserted(w.order, src, parsed, w.maxBytes), callers := w.callers[c := Back(src, parsed)])
  }

  ghost predicate Inv(w: World) {
    && Good(w.order, w.maxBytes)
    && forall c :: 0 <= c < |w.callers| && w.callers[c].Back? ==> w.callers[c].parsed == Template(w.callers[c].src)
  }

  lemma StepKeepsInv(w: World, step: Step)
    requires Inv(w) && Enabled(w, step)
    ensures Inv(Apply(w, step))
  {
    hide Template, Total, MovedToFront, Inserted;
    match step {
      case Arrive(_) =>
      case First(c) =>
        var i := Position(w.order, w.callers[c].src);
        if i < |w.order| { MovedStaysGood(w.order, i, w.maxBytes); }
      case Second(c) => InsertedStaysGood(w.order, w.callers[c].src, w.maxBytes);
    }
  }

  predicate Possible(maxBytes: int, steps: seq<Step>)
    decreases |steps|, 0
  {
    var n := |steps|;
    n > 0 ==> Possible(maxBytes, steps[..n - 1]) && Enabled(After(maxBytes, steps[..n - 1]), steps[n - 1])
  }

  /** Where the steps lead from an empty cache. */
  function After(maxBytes: int, steps: seq<Step>): World
    requires Possible(maxBytes, steps)
    decreases |steps|, 1
  {
    var n := |steps|;
    if n == 0 then World(maxBytes, [], []) else Apply(After(maxBytes, steps[..n - 1]), steps[n - 1])
  }

  /** In every interleaving the cache stays good, and every caller is given what parsing its source gives. */
  lemma {:induction false} CacheAgreesWithParse(maxBytes: int, steps: seq<Step>)
    requires Possible(maxBytes, steps)
    ensures var w := After(maxBytes, steps);
      && Good(w.order, maxBytes)
      && forall c :: 0 <= c < |w.callers| && w.callers[c].Back? ==> w.callers[c].parsed == Template(w.callers[c].src)
  {
    hide Template, Apply, Good;
    var n := |steps|;
    if n == 0 {
      NothingIsGood(maxBytes);
    } else {
      CacheAgreesWithParse(maxBytes, steps[..n - 1]);
      LimitStays(maxBytes, steps[..n - 1]);
      StepKeepsInv(After(maxBytes, steps[..n - 1]), steps[n - 1]);
    }
    LimitStays(maxBytes, steps);
  }

  lemma {:induction false} LimitStays(maxBytes: int, steps: seq<Step>)
    requires Possible(maxBytes, steps)
    ensures After(maxBytes, steps).maxBytes == maxBytes
  {
    hide Template, Inserted, MovedToFront;
    if steps != [] { LimitStays(maxBytes, steps[..|steps| - 1]); }
  }

  lemma NothingIsGood(maxBytes: int)
    ensures Good([], maxBytes)
  {
  }
}
