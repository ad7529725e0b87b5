/**
 Going through the matches of a regular expression (internal/vtl/string_methods.go:197-325): one match
 at a time, and in doubling batches, against the scan of Go's FindAll.
 */
module Matching {
  import opened Common
  import opened Budgets
  import opened Limits

  /** What one match is charged: four slots. */
  const MATCH_COST: nat := 4 * SLOT_BYTES

  const FIRST_MATCH_BATCH: nat := 64

  /** A match, from start to end. */
  datatype Loc = Loc(start: nat, end: nat)

  /**
   A compiled expression on one text, for each position: where the match starting there ends, and how many
   bytes the character there has. The end of the text is a position too.
   */
  datatype Engine = Engine(at: seq<Option<nat>>, width: seq<nat>)

  ghost predicate Valid(e: Engine) {
    && |e.at| == |e.width| + 1
    && (forall q :: 0 <= q < |e.at| && e.at[q].Some? ==> q <= e.at[q].value <= |e.width|)
    && (forall q :: 0 <= q < |e.width| ==> 1 <= e.width[q] <= |e.width| - q)
  }

  /** The leftmost match at or after a position. */
  function Find(e: Engine, pos: nat): (r: Option<Loc>)
    requires Valid(e) && pos <= |e.width|
    ensures r.Some? ==> pos <= r.value.start <= r.value.end <= |e.width| && e.at[r.value.start] == Some(r.value.end)
    ensures r.Some? && e.at[pos].Some? ==> r.value.start == pos
    decreases |e.width| - pos
  {
    if e.at[pos].Some? then Some(Loc(pos, e.at[pos].value))
    else if pos == |e.width| then None
    else Find(e, pos + e.width[pos])
  }

  /** The scan of FindAll from pos, when the match before it ended at prevEnd. */
  function Scan(e: Engine, pos: nat, prevEnd: int): (locs: seq<Loc>)
    requires Valid(e)
    ensures |locs| <= if pos <= |e.width| then |e.width| + 1 - pos else 0
    decreases |e.width| + 1 - pos
  {
    if pos > |e.width| then []
    else match Find(e, pos)
      case None => []
      case Some(l) =>
        var next := if l.end != pos then l.end else if pos < |e.width| then pos + e.width[pos] else |e.width| + 1;
        if l.end == pos && l.start == prevEnd then Scan(e, next, l.end) else [l] + Scan(e, next, l.end)
  }

  function Take(locs: seq<Loc>, n: int): seq<Loc> { if 0 <= n < |locs| then locs[..n] else locs }

  /** What FindAll returns: the matches of the scan, at most n of them when n is not negative. */
  function FindAll(e: Engine, n: int): seq<Loc>
    requires Valid(e)
  {
    Take(Scan(e, 0, -1), n)
  }

  /** The matches follow each other without overlap, and an empty one never ends the match before it. */
  lemma {:induction false} MatchesAreApart(e: Engine, pos: nat, prevEnd: int, k: nat)
    requires Valid(e) && prevEnd <= pos && k < |Scan(e, pos, prevEnd)|
    ensures var l := Scan(e, pos, prevEnd)[k];
      && l.start <= |e.width| && e.at[l.start] == Some(l.end)
      && pos <= l.start
      && (k == 0 && l.start == l.end ==> l.start != prevEnd)
      && (k > 0 ==> var before := Scan(e, pos, prevEnd)[k - 1];
            before.end <= l.start && (l.start == l.end ==> l.start != before.end))
    decreases |e.width| + 1 - pos
  {
    var l := Find(e, pos).value;
    var next := if l.end != pos then l.end else if pos < |e.width| then pos + e.width[pos] else |e.width| + 1;
    assert pos < next;
    hide Find, Valid;
    if l.end == pos && l.start == prevEnd {
      MatchesAreApart(e, next, l.end, k);
    } else if k > 0 {
      MatchesAreApart(e, next, l.end, k - 1);
    }
  }

  /** An empty match found again where the last one ended is passed over. */
  lemma EmptyAgain(e: Engine, q: nat)
    requires Valid(e) && q <= |e.width| && e.at[q] == Some(q)
    ensures Scan(e, q, q) == Scan(e, if q < |e.width| then q + e.width[q] else |e.width| + 1, q)
  {
  }

  /** Positions the search goes through from pos, one character at a time. */
  ghost predicate StepsTo(e: Engine, pos: nat, q: nat)
    requires Valid(e)
    decreases q - pos
  {
    pos == q || (pos < q && pos < |e.width| && StepsTo(e, pos + e.width[pos], q))
  }

  /** No match starts at a position before the one found, or at any when none is found. */
  lemma {:induction false} FindIsLeftmost(e: Engine, pos: nat, q: nat)
    requires Valid(e) && pos <= |e.width| && q <= |e.width| && StepsTo(e, pos, q)
    ensures e.at[q].Some? ==> Find(e, pos).Some? && Find(e, pos).value.start <= q
    decreases |e.width| - pos
  {
    if e.at[pos].None? && pos < |e.width| && pos != q {
      FindIsLeftmost(e, pos + e.width[pos], q);
    }
  }

  /** What a compiled expression finds on any text. */
  type Pattern = string -> Engine

  /** The engine f finds from its start on what e finds from pos on. */
  ghost predicate SameFrom(e: Engine, pos: nat, f: Engine) {
    && |f.width| + pos == |e.width|
    && |f.at| + pos == |e.at|
    && (forall q :: 0 <= q < |f.at| ==> e.at[pos + q] == Shift(f.at[q], pos))
    && (forall q :: 0 <= q < |f.width| ==> e.width[pos + q] == f.width[q])
  }

  /** A match needs only the text from its start on, so that a suffix can be searched alone. */
  ghost predicate ContextFree(p: Pattern, s: string) {
    forall pos: nat {:trigger s[pos..]} :: pos <= |s| ==> SameFrom(p(s), pos, p(s[pos..]))
  }

  /** The expression says something about every position of the text. */
  ghost predicate Covers(p: Pattern, s: string) {
    |p(s).width| == |s| && Valid(p(s))
  }

  function Shift(end: Option<nat>, pos: nat): Option<nat> {
    if end.Some? then Some(end.value + pos) else None
  }

  function ShiftLoc(l: Option<Loc>, pos: nat): Option<Loc> {
    if l.Some? then Some(Loc(l.value.start + pos, l.value.end + pos)) else None
  }

  lemma SuffixIsValid(e: Engine, pos: nat, f: Engine)
    requires Valid(e) && SameFrom(e, pos, f)
    ensures Valid(f)
  {
    forall q | 0 <= q < |f.at| ensures f.at[q].Some? ==> q <= f.at[q].value <= |f.width| {
      assert e.at[pos + q] == Shift(f.at[q], pos);
    }
    forall q | 0 <= q < |f.width| ensures 1 <= f.width[q] <= |f.width| - q {
      assert e.width[pos + q] == f.width[q];
    }
  }

  lemma {:induction false} SuffixSearch(e: Engine, pos: nat, f: Engine, q: nat)
    requires SameFrom(e, pos, f) && Valid(e) && Valid(f) && q <= |f.width|
    ensures Find(e, pos + q) == ShiftLoc(Find(f, q), pos)
    decreases |f.width| - q
  {
    assert |f.width| + pos == |e.width| && e.at[pos + q] == Shift(f.at[q], pos);
    assert q < |f.width| ==> e.width[pos + q] == f.width[q] && 1 <= f.width[q] <= |f.width| - q;
    assert |e.at| == |e.width| + 1 && |f.at| == |f.width| + 1;
    hide Valid, SameFrom;
    if q < |f.width| && f.at[q].None? {
      SuffixSearch(e, pos, f, q + f.width[q]);
    }
  }

  /** The first match at or after pos, found in the text from pos on and moved back. */
  method FindFrom(p: Pattern, s: string, pos: nat) returns (loc: Option<Loc>)
    requires Covers(p, s) && ContextFree(p, s) && pos <= |s|
    ensures loc == Find(p(s), pos)
  {
    var f := p(s[pos..]);
    SuffixIsValid(p(s), pos, f);
    SuffixSearch(p(s), pos, f, 0);
    loc := Find(f, 0);
    if loc.Some? { loc := Some(Loc(loc.value.start + pos, loc.value.end + pos)); }
  }

  /** Where to search after a match: its end, or one character further; None at the end of the text. */
  function NextSearch(e: Engine, l: Loc): Option<nat> {
    if l.start != l.end then Some(l.end)
    else if l.end >= |e.width| then None
    else Some(l.end + e.width[l.end])
  }

  /** How going through the matches ends: the caller's function, or the memory budget, may stop it. */
  datatype Ending = Done | Refused | NoMemory

  /** The function accepted every one of the matches it was called with. */
  ghost predicate Accepted(accepts: seq<Loc> -> bool, locs: seq<Loc>) {
    forall k :: 0 < k <= |locs| ==> accepts(locs[..k])
  }

  lemma NothingRefused(accepts: seq<Loc> -> bool)
    ensures Accepted(accepts, [])
  {
  }

  lemma AcceptedMore(accepts: seq<Loc> -> bool, locs: seq<Loc>, l: Loc)
    requires Accepted(accepts, locs)
    ensures (locs + [l])[..|locs + [l]| - 1] == locs
    ensures accepts(locs + [l]) ==> Accepted(accepts, locs + [l])
  {
    forall k | 0 < k <= |locs| + 1 ensures (locs + [l])[..k] == if k <= |locs| then locs[..k] else locs + [l] {}
  }

  /** How a run over matches may end, when all are the matches there are. */
  ghost predicate Ended(all: seq<Loc>, accepts: seq<Loc> -> bool, locs: seq<Loc>, ending: Ending) {
    && locs <= all
    && (ending.Done? ==> locs == all)
    && (if ending.Refused? then
          locs != [] && Accepted(accepts, locs[..|locs| - 1]) && !accepts(locs)
        else Accepted(accepts, locs))
  }

  /** What was delivered and what the scan finds from pos on are all its matches, within n. */
  ghost predicate Ahead(e: Engine, n: int, locs: seq<Loc>, pos: nat, prevEnd: int)
    requires Valid(e)
  {
    && prevEnd <= pos
    && Scan(e, 0, -1) == locs + Scan(e, pos, prevEnd)
    && (n >= 0 ==> |locs| <= n)
  }

  lemma AheadAtStart(e: Engine, n: int)
    requires Valid(e)
    ensures Ahead(e, n, [], 0, -1)
  {
  }

  lemma AheadIsPrefix(e: Engine, n: int, locs: seq<Loc>, pos: nat, prevEnd: int)
    requires Valid(e) && Ahead(e, n, locs, pos, prevEnd)
    ensures locs <= FindAll(e, n)
    ensures pos > |e.width| || |locs| == n || Find(e, pos).None? ==> locs == FindAll(e, n)
  {
  }

  /** What a match adds to those delivered. */
  function Accept(locs: seq<Loc>, l: Loc, prevEnd: int): seq<Loc> {
    if l.start != l.end || l.start != prevEnd then locs + [l] else locs
  }

  /** One round of the loop is one round of the scan, or two when an empty match lies further ahead. */
  lemma AheadAfterMatch(e: Engine, n: int, locs: seq<Loc>, pos: nat, prevEnd: int)
    requires Valid(e) && Ahead(e, n, locs, pos, prevEnd)
    requires pos <= |e.width| && |locs| != n && Find(e, pos).Some?
    ensures var l := Find(e, pos).value; var next := NextSearch(e, l);
      && l.end <= |e.width|
      && (l.start == l.end == prevEnd ==> l.end == prevEnd)
      && Accept(locs, l, prevEnd) <= FindAll(e, n)
      && (next.None? ==> Accept(locs, l, prevEnd) == FindAll(e, n))
      && (next.Some? ==> pos < next.value <= |e.width| && Ahead(e, n, Accept(locs, l, prevEnd), next.value, l.end))
  {
    var l := Find(e, pos).value;
    AfterSearch(e, pos, prevEnd);
    var rest := AfterMatch(e, l);
    assert |locs + [l]| == |locs| + 1;
    hide Scan, Find, Valid, NextSearch;
    assert Scan(e, 0, -1) == Accept(locs, l, prevEnd) + rest;
  }

  /** What the scan still has to find after a match. */
  ghost function AfterMatch(e: Engine, l: Loc): seq<Loc>
    requires Valid(e) && l.start <= l.end <= |e.width|
  {
    var next := NextSearch(e, l);
    if next.Some? then Scan(e, next.value, l.end) else []
  }

  lemma AfterSearch(e: Engine, pos: nat, prevEnd: int)
    requires Valid(e) && pos <= |e.width| && prevEnd <= pos && Find(e, pos).Some?
    ensures var l := Find(e, pos).value;
      && (NextSearch(e, l).Some? ==> pos < NextSearch(e, l).value <= |e.width|)
      && Scan(e, pos, prevEnd) ==
           if l.start != l.end || l.start != prevEnd then [l] + AfterMatch(e, l) else AfterMatch(e, l)
  {
    var l := Find(e, pos).value;
    hide Find;
    if l.start == l.end && l.end != pos {
      EmptyAgain(e, l.end);
    }
  }

  /** How many of these matches the function called for each charges a slot for. */
  function Slots(charges: Loc -> bool, locs: seq<Loc>): nat {
    if locs == [] then 0
    else Slots(charges, locs[..|locs| - 1]) + if charges(locs[|locs| - 1]) then 1 else 0
  }

  lemma SlotsMore(charges: Loc -> bool, locs: seq<Loc>, l: Loc)
    ensures Slots(charges, locs + [l]) == Slots(charges, locs) + if charges(l) then 1 else 0
  {
    assert (locs + [l])[..|locs|] == locs;
  }

  /**
   What a run has charged: every match delivered and its slot, and no more than one match for each position
   of the text. Only a run the budget ended may have a slot too many.
   */
  ghost predicate Charged(before: int, after: int, len: nat, charges: Loc -> bool, locs: seq<Loc>, ending: Ending) {
    && before + |locs| * 256 + Slots(charges, locs) * 64 <= after
    && after <= before + (len + 1) * 256 + (Slots(charges, locs) + if ending.NoMemory? then 1 else 0) * 64
  }

  /**
   One match at a time. The function called for each match is given by whether it charges a slot first,
   and by whether it accepts the matches so far; the matches it went through are returned.
   */
  method EachMatchIncremental(mem: Budget, p: Pattern, s: string, n: int, charges: Loc -> bool,
                              accepts: seq<Loc> -> bool)
    returns (locs: seq<Loc>, ending: Ending)
    requires Covers(p, s) && ContextFree(p, s)
    modifies mem`used, mem.pool
    ensures Ended(FindAll(p(s), n), accepts, locs, ending)
    ensures ending.NoMemory? ==> mem.Over(0)
    ensures Charged(old(mem.used), mem.used, |s|, charges, locs, ending)
  {
    hide ContextFree, Valid, Scan, Accepted, Find, Take, FindAll, Ahead, NextSearch, Slots;
    var pos: nat, prevEnd: int := 0, -1;
    locs := [];
    AheadAtStart(p(s), n);
    NothingRefused(accepts);
    NoSlots(charges);
    ghost var searches := 0;
    while pos <= |s| && (n < 0 || |locs| < n)
      invariant Ahead(p(s), n, locs, pos, prevEnd) && Accepted(accepts, locs)
      invariant n >= 0 ==> |locs| <= n
      invariant |locs| <= searches <= pos && searches <= |s| + 1
      invariant mem.used == old(mem.used) + searches * 256 + Slots(charges, locs) * 64
      decreases |s| + 1 - pos
    {
      AheadIsPrefix(p(s), n, locs, pos, prevEnd);
      var ok := mem.Charge(MATCH_COST);
      searches := searches + 1;
      if !ok { return locs, NoMemory; }
      var found := FindFrom(p, s, pos);
      if found.None? { return locs, Done; }
      var l := found.value;
      AheadAfterMatch(p(s), n, locs, pos, prevEnd);
      if l.start != l.end || l.start != prevEnd {
        if charges(l) {
          ok := mem.Charge(SLOT_BYTES);
          if !ok { return locs, NoMemory; }
        }
        AcceptedMore(accepts, locs, l);
        SlotsMore(charges, locs, l);
        locs := locs + [l];
        if !accepts(locs) { return locs, Refused; }
        prevEnd := l.end;
      }
      var next := NextSearch(p(s), l);
      if next.None? { return locs, Done; }
      pos := next.value;
    }
    AheadIsPrefix(p(s), n, locs, pos, prevEnd);
    return locs, Done;
  }

  lemma NoSlots(charges: Loc -> bool)
    ensures Slots(charges, []) == 0
  {
  }

  /** A batch that is not full, or is as long as the matches asked for, holds all of them. */
  lemma BatchHoldsAll(e: Engine, n: int, batch: nat)
    requires Valid(e) && (n >= 0 ==> batch <= n) && (|FindAll(e, batch)| != batch || batch == n)
    ensures FindAll(e, batch) == FindAll(e, n)
  {
    hide Scan;
  }

  /** A full batch that more matches were asked for leaves at least as many to find. */
  lemma FullBatch(e: Engine, n: int, batch: nat)
    requires Valid(e) && (n >= 0 ==> batch <= n) && |FindAll(e, batch)| == batch
    ensures batch <= |FindAll(e, n)|
  {
    hide Scan;
  }

  /**
   The most a batch is checked for: room for twice the first batch, or for four times the matches there
   are to deliver.
   */
  function BatchRoom(matches: nat): nat { 512 * Max(FIRST_MATCH_BATCH, 2 * matches) }

  /** Batches of matches from the start of the text, each twice as large, until one holds them all. */
  method CollectInBatches(mem: Budget, e: Engine, n: int) returns (found: seq<Loc>, ok: bool)
    requires Valid(e)
    modifies mem`used, mem.pool
    ensures ok ==> found == FindAll(e, n) && mem.used == old(mem.used) + |found| * 256
    ensures !ok ==> mem.Over(BatchRoom(|FindAll(e, n)|))
    ensures old(mem.used) <= mem.used <= old(mem.used) + (|e.width| + 1) * 256
  {
    hide Valid, Scan, FindAll, Take;
    var batch := FIRST_MATCH_BATCH;
    while true
      invariant 0 < batch <= Max(FIRST_MATCH_BATCH, 2 * |FindAll(e, n)|) || batch == n == 0
      invariant mem.used == old(mem.used) && mem.pool.inFlight == old(mem.pool.inFlight)
      decreases 2 * (|e.width| + 1) + FIRST_MATCH_BATCH - batch
    {
      if n >= 0 && batch >= n { batch := n; }
      ok := mem.Check(2 * batch * MATCH_COST);
      if !ok { return [], false; }
      found := FindAll(e, batch);
      FindAllIsShort(e, batch);
      FindAllIsShort(e, n);
      if |found| == batch && batch != n {
        FullBatch(e, n, batch);
        batch := batch * 2;
        continue;
      }
      BatchHoldsAll(e, n, batch);
      break;
    }
    ok := mem.Charge(|found| * MATCH_COST);
  }

  lemma FindAllIsShort(e: Engine, n: int)
    requires Valid(e)
    ensures |FindAll(e, n)| <= |e.width| + 1
  {
  }

  /** Calls the function for each match until it refuses one or cannot charge its slot. */
  method Deliver(mem: Budget, found: seq<Loc>, charges: Loc -> bool, accepts: seq<Loc> -> bool)
    returns (locs: seq<Loc>, ending: Ending)
    modifies mem`used, mem.pool
    ensures Ended(found, accepts, locs, ending)
    ensures ending.NoMemory? ==> mem.Over(0)
    ensures mem.used == old(mem.used) + (Slots(charges, locs) + if ending.NoMemory? then 1 else 0) * 64
  {
    hide Accepted, Slots;
    NothingRefused(accepts);
    NoSlots(charges);
    locs := [];
    var i := 0;
    while i < |found|
      invariant 0 <= i <= |found| && locs == found[..i] && Accepted(accepts, locs)
      invariant mem.used == old(mem.used) + Slots(charges, locs) * 64
    {
      if charges(found[i]) {
        var ok := mem.Charge(SLOT_BYTES);
        if !ok { return locs, NoMemory; }
      }
      AcceptedMore(accepts, locs, found[i]);
      SlotsMore(charges, locs, found[i]);
      locs := locs + [found[i]];
      if !accepts(locs) { return locs, Refused; }
      i := i + 1;
    }
    return locs, Done;
  }

  /** All matches are collected first; only then are they delivered. */
  method EachMatchBatched(mem: Budget, p: Pattern, s: string, n: int, charges: Loc -> bool,
                          accepts: seq<Loc> -> bool)
    returns (locs: seq<Loc>, ending: Ending)
    requires Covers(p, s)
    modifies mem`used, mem.pool
    ensures Ended(FindAll(p(s), n), accepts, locs, ending)
    ensures ending.NoMemory? ==> mem.Over(BatchRoom(|FindAll(p(s), n)|))
    ensures Charged(old(mem.used), mem.used, |s|, charges, locs, ending)
  {
    NothingRefused(accepts);
    NoSlots(charges);
    hide Accepted, Slots, FindAll;
    var found, ok := CollectInBatches(mem, p(s), n);
    if !ok { return [], NoMemory; }
    locs, ending := Deliver(mem, found, charges, accepts);
  }

  /** The room a budget must lack for going through the matches to fail for memory. */
  function Room(needsContext: bool, e: Engine, n: int): nat
    requires Valid(e)
  {
    if needsContext then BatchRoom(|FindAll(e, n)|) else 0
  }

  /**
   Whether the expression looks back decides which loop runs; what is delivered is the same, and only a
   budget that has no room left ends the run early.
   */
  method EachMatch(mem: Budget, p: Pattern, needsContext: bool, s: string, n: int, charges: Loc -> bool,
                   accepts: seq<Loc> -> bool)
    returns (locs: seq<Loc>, ending: Ending)
    requires Covers(p, s) && (needsContext || ContextFree(p, s))
    modifies mem`used, mem.pool
    ensures Ended(FindAll(p(s), n), accepts, locs, ending)
    ensures ending.NoMemory? ==> mem.Over(Room(needsContext, p(s), n))
    ensures Charged(old(mem.used), mem.used, |s|, charges, locs, ending)
  {
    if needsContext {
      locs, ending := EachMatchBatched(mem, p, s, n, charges, accepts);
    } else {
      locs, ending := EachMatchIncremental(mem, p, s, n, charges, accepts);
    }
  }
}
