/**
 Saving and restoring ids (persist/persist.go:110-274, persist/idcounter.go): snapshots taken and brought
 back while ids are minted, and process restarts in between. A service is its set of ids and the text it
 saves itself as.
 */
module Persistence {
  import opened Common
  import IdCounter

  // ---- The floor of an old snapshot

  const LEGACY_ID_CAP: nat := 0x1000_0000
  const COUNTER_HEX_LEN: nat := 8

  predicate IsHex(c: char) { '0' <= c <= '9' || 'a' <= c <= 'f' || 'A' <= c <= 'F' }

  function HexDigit(c: char): nat
    requires IsHex(c)
  {
    if '0' <= c <= '9' then c as nat - '0' as nat
    else if 'a' <= c <= 'f' then c as nat - 'a' as nat + 10
    else c as nat - 'A' as nat + 10
  }

  function HexValue(s: string): nat
    requires forall c <- s :: IsHex(c)
  {
    if s == "" then 0 else 16 * HexValue(s[..|s| - 1]) + HexDigit(s[|s| - 1])
  }

  /** The last hex digits of the data before a place are those of an id. */
  predicate IdEndsAt(data: string, end: nat) {
    && COUNTER_HEX_LEN <= end <= |data|
    && (forall i :: end - COUNTER_HEX_LEN <= i < end ==> IsHex(data[i]))
    && (end == |data| || !IsHex(data[end]))
  }

  function IdBefore(data: string, end: nat): nat
    requires IdEndsAt(data, end)
  {
    var s := data[end - COUNTER_HEX_LEN..end];
    assert forall c <- s :: IsHex(c);
    HexValue(s)
  }

  /** The highest id below the cap that ends at or before a place of the data. */
  function LegacyFloor(data: string, end: nat): nat
    requires end <= |data|
  {
    var before := if end == 0 then 0 else LegacyFloor(data, end - 1);
    if IdEndsAt(data, end) && IdBefore(data, end) < LEGACY_ID_CAP && IdBefore(data, end) > before then
      IdBefore(data, end)
    else before
  }

  /** The floor is no lower than any of the ids in the data, and is one of them unless it is zero. */
  lemma {:induction false} LegacyFloorIsHighest(data: string, end: nat, at: nat)
    requires at <= end <= |data|
    ensures IdEndsAt(data, at) && IdBefore(data, at) < LEGACY_ID_CAP ==> IdBefore(data, at) <= LegacyFloor(data, end)
    ensures LegacyFloor(data, end) == 0 ||
      exists e :: 0 <= e <= end && IdEndsAt(data, e) && IdBefore(data, e) == LegacyFloor(data, end) < LEGACY_ID_CAP
  {
    hide IdBefore, IdEndsAt;
    if end > 0 {
      LegacyFloorIsHighest(data, end - 1, if at < end then at else 0);
    }
  }

  /** The last n hex digits of v. */
  function Hex(v: nat, n: nat): (s: string)
    ensures |s| == n && forall c <- s :: IsHex(c)
  {
    if n == 0 then ""
    else Hex(v / 16, n - 1) + [if v % 16 < 10 then '0' + (v % 16) as char else 'a' + (v % 16 - 10) as char]
  }

  lemma {:induction false} HexBack(v: nat, n: nat)
    ensures HexValue(Hex(v, n)) < Power16(n)
    ensures v < Power16(n) ==> HexValue(Hex(v, n)) == v
  {
    if n > 0 {
      HexBack(v / 16, n - 1);
      var s := Hex(v, n);
      assert s[..n - 1] == Hex(v / 16, n - 1);
    }
  }

  function Power16(n: nat): nat { if n == 0 then 1 else 16 * Power16(n - 1) }

  /** An id written into the data as eight digits or more, and not followed by another one, is below the floor. */
  lemma {:induction false} WrittenIsCovered(a: string, id: nat, b: string)
    requires id < LEGACY_ID_CAP && (b == "" || !IsHex(b[0]))
    ensures LegacyFloor(a + Hex(id, 8) + b, |a + Hex(id, 8) + b|) >= id
  {
    var data := a + Hex(id, 8) + b;
    var end := |a| + 8;
    HexBack(id, 8);
    Power8();
    assert data[end - 8..end] == Hex(id, 8);
    if b != "" { assert data[end] == b[0]; }
    forall i | end - 8 <= i < end ensures IsHex(data[i]) { assert data[i] == Hex(id, 8)[i - |a|]; }
    hide Hex, HexValue, LegacyFloor, Power16;
    LegacyFloorIsHighest(data, |data|, end);
  }

  lemma Power8()
    ensures Power16(8) == 0x1_0000_0000
  {
    assert Power16(4) == 0x1_0000;
  }

  /** legacyIDFloor: run by run, the last eight digits of every run of hex digits that is long enough. */
  method LegacyIdFloor(data: string) returns (floor: nat)
    ensures floor == LegacyFloor(data, |data|)
  {
    hide IdBefore;
    floor := 0;
    var start, end := 0, 0;
    while end < |data|
      invariant 0 <= start <= end <= |data|
      invariant forall i :: start <= i < end ==> IsHex(data[i])
      invariant start > 0 ==> !IsHex(data[start - 1])
      invariant floor == if end == 0 then 0 else LegacyFloor(data, end - 1)
    {
      if IsHex(data[end]) {
        end := end + 1;
      } else {
        floor := Counted(data, start, end, floor);
        end := end + 1;
        start := end;
      }
    }
    floor := Counted(data, start, end, floor);
  }

  /** One run of hex digits: its last eight, when it is long enough and they are below the cap. */
  method Counted(data: string, start: nat, end: nat, floor: nat) returns (r: nat)
    requires start <= end <= |data| && (end == |data| || !IsHex(data[end]))
    requires forall i :: start <= i < end ==> IsHex(data[i])
    requires start > 0 ==> !IsHex(data[start - 1])
    requires floor == if end == 0 then 0 else LegacyFloor(data, end - 1)
    ensures r == LegacyFloor(data, end)
  {
    if end - start < COUNTER_HEX_LEN {
      assert !IdEndsAt(data, end);
      return floor;
    }
    assert IdEndsAt(data, end);
    var s := data[end - COUNTER_HEX_LEN..end];
    assert forall c <- s :: IsHex(c);
    var v := HexValue(s);
    if v >= LEGACY_ID_CAP { return floor; }
    r := if v > floor then v else floor;
  }

  // ---- Snapshots

  /** What a service saved: the counter-minted ids in it, and the text of it all. */
  datatype Captured = Captured(ids: set<nat>, data: string)

  datatype ProviderState = ProviderState(services: map<string, Captured>, idCounter: nat)

  /** The highest legacy floor of some services. */
  ghost predicate IsLegacyFloor(services: map<string, Captured>, floor: nat) {
    && (forall s <- services :: LegacyFloor(services[s].data, |services[s].data|) <= floor)
    && (floor == 0 || exists s <- services :: LegacyFloor(services[s].data, |services[s].data|) == floor)
  }

  /** The floor a state asks for before it is brought back. */
  ghost predicate IsIdFloor(ps: ProviderState, floor: nat) {
    && (ps.idCounter != 0 || ps.services == map[] ==> floor == ps.idCounter)
    && (ps.idCounter == 0 ==> IsLegacyFloor(ps.services, floor))
  }

  /** idFloor: the recorded counter, or an estimate from the ids of a snapshot without one. */
  method IdFloor(ps: ProviderState) returns (floor: nat)
    ensures IsIdFloor(ps, floor)
  {
    if ps.idCounter != 0 || ps.services == map[] { return ps.idCounter; }
    hide LegacyFloor;
    floor := 0;
    var todo := ps.services.Keys;
    while todo != {}
      invariant todo <= ps.services.Keys
      invariant forall s <- ps.services.Keys - todo :: LegacyFloor(ps.services[s].data, |ps.services[s].data|) <= floor
      invariant floor == 0 ||
                exists s <- ps.services :: LegacyFloor(ps.services[s].data, |ps.services[s].data|) == floor
      decreases todo
    {
      var name :| name in todo;
      todo := todo - {name};
      var legacy := LegacyIdFloor(ps.services[name].data);
      if legacy > floor { floor := legacy; }
    }
  }

  /** Some text of the services has an id below the cap that is as high. */
  ghost predicate Shown(services: map<string, Captured>, id: nat) {
    id == 0 || exists s <- services :: ShownIn(services[s].data, id)
  }

  ghost predicate ShownIn(data: string, id: nat) {
    exists e :: 0 <= e <= |data| && IdEndsAt(data, e) && id <= IdBefore(data, e) < LEGACY_ID_CAP
  }

  ghost predicate AllShown(services: map<string, Captured>) {
    forall s <- services :: forall id <- services[s].ids :: Shown(services, id)
  }

  lemma ShownExactly(data: string, id: nat)
    requires id > 0
    ensures ShownIn(data, id) <==> id <= LegacyFloor(data, |data|)
  {
    LegacyFloorIsHighest(data, |data|, 0);
    if ShownIn(data, id) {
      var e :| 0 <= e <= |data| && IdEndsAt(data, e) && id <= IdBefore(data, e) < LEGACY_ID_CAP;
      LegacyFloorIsHighest(data, |data|, e);
    }
    hide LegacyFloor;
  }

  /** The floor of a snapshot without a counter covers its ids exactly when its texts show one as high as each. */
  lemma LegacyCoversExactly(services: map<string, Captured>, floor: nat)
    requires IsLegacyFloor(services, floor)
    ensures CapturedUpTo(services, floor) <==> AllShown(services)
  {
    forall id: nat ensures Shown(services, id) <==> id <= floor {
      forall s <- services | id > 0
        ensures ShownIn(services[s].data, id) <==> id <= LegacyFloor(services[s].data, |services[s].data|)
      {
        ShownExactly(services[s].data, id);
      }
      hide ShownIn, LegacyFloor;
    }
    hide Shown, IsLegacyFloor;
    if CapturedUpTo(services, floor) {
      forall s <- services ensures forall id <- services[s].ids :: Shown(services, id) {
        assert IdsUpTo(services[s].ids, floor);
      }
    }
  }

  predicate IdsUpTo(ids: set<nat>, n: nat) { forall id <- ids :: id <= n }

  predicate CapturedUpTo(services: map<string, Captured>, n: nat) {
    forall s <- services :: IdsUpTo(services[s].ids, n)
  }

  // ---- Processes that save, stop and restore

  /** A service of a provider. */
  datatype Key = Key(provider: string, service: string)

  /** An export of a provider under way, with the services captured so far. */
  datatype Export = Export(provider: string, captured: map<string, Captured>)

  /** A restore under way: the states by provider, and the providers whose floors have been applied. */
  datatype Restore = Restore(states: map<string, ProviderState>, floored: set<string>)

  /**
   The counter; the ids of live resources by service, and those minted for resources being created; every
   id this process has minted or brought back; the snapshots on disk, and what is being saved or restored.
   */
  datatype World = World(
    counter: nat,
    live: map<Key, set<nat>>,
    flying: set<nat>,
    known: set<nat>,
    saved: seq<ProviderState>,
    exporting: Option<Export>,
    restoring: Option<Restore>)

  datatype Step =
    | Mint
    | Land(id: nat, key: Key)
    | Delete(id: nat, key: Key)
    | BeginExport(provider: string)
    | Capture(service: string, data: string)
    | EndExport
    | FoundOld(services: map<string, Captured>)
    | Restart
    | BeginRestore(chosen: map<string, nat>)
    | Floor(provider: string, floor: nat)
    | Bring(key: Key)
    | EndRestore

  function Ids(w: World, key: Key): set<nat> { if key in w.live then w.live[key] else {} }

  /** Floors come first: a service is brought back only after all of them have been applied. */
  predicate AllFloored(w: World) { w.restoring.Some? && w.restoring.value.floored == w.restoring.value.states.Keys }

  ghost predicate Enabled(w: World, step: Step) {
    match step
    case Mint => w.counter < IdCounter.MAX_UINT64
    case Land(id, _) => id in w.flying
    case Delete(id, key) => id in Ids(w, key)
    case BeginExport(_) => w.exporting.None?
    case Capture(_, _) => w.exporting.Some?
    case EndExport => w.exporting.Some?
    case FoundOld(services) => AllShown(services)
    case Restart => true
    case BeginRestore(chosen) => w.restoring.None? && forall p <- chosen :: chosen[p] < |w.saved|
    case Floor(p, floor) =>
      w.restoring.Some? && p in w.restoring.value.states && IsIdFloor(w.restoring.value.states[p], floor)
    case Bring(key) =>
      AllFloored(w) && key.provider in w.restoring.value.states &&
      key.service in w.restoring.value.states[key.provider].services
    case EndRestore => AllFloored(w)
  }

  ghost function Apply(w: World, step: Step): World
    requires Enabled(w, step)
  {
    match step
    case Mint =>
      var id := IdCounter.Incremented(w.counter);
      w.(counter := id, flying := w.flying + {id}, known := w.known + {id})
    case Land(id, key) => w.(flying := w.flying - {id}, live := w.live[key := Ids(w, key) + {id}])
    case Delete(id, key) => w.(live := w.live[key := Ids(w, key) - {id}])
    case BeginExport(p) => w.(exporting := Some(Export(p, map[])))
    case Capture(s, data) =>
      var e := w.exporting.value;
      w.(exporting := Some(e.(captured := e.captured[s := Captured(Ids(w, Key(e.provider, s)), data)])))
    case EndExport =>
      w.(saved := w.saved + [ProviderState(w.exporting.value.captured, w.counter)], exporting := None)
    case FoundOld(services) => w.(saved := w.saved + [ProviderState(services, 0)])
    case Restart => World(0, map[], {}, {}, w.saved, None, None)
    case BeginRestore(chosen) => w.(restoring := Some(Restore(map p | p in chosen :: w.saved[chosen[p]], {})))
    case Floor(p, floor) =>
      var r := w.restoring.value;
      w.(counter := IdCounter.RaisedTo(w.counter, floor),
         restoring := Some(r.(floored := r.floored + {p})))
    case Bring(key) =>
      var ids := w.restoring.value.states[key.provider].services[key.service].ids;
      w.(live := w.live[key := ids], known := w.known + ids)
    case EndRestore => w.(restoring := None)
  }

  /** No id in use, known, or captured by an export under way is above the counter. */
  ghost predicate CounterCovers(w: World) {
    && IdsUpTo(w.known, w.counter) && IdsUpTo(w.flying, w.counter)
    && (forall key <- w.live :: IdsUpTo(w.live[key], w.counter))
    && (w.exporting.Some? ==> CapturedUpTo(w.exporting.value.captured, w.counter))
  }

  /** Whatever floor a state asks for, no id in it is above. */
  ghost predicate FloorCovers(ps: ProviderState) {
    forall floor :: IsIdFloor(ps, floor) ==> CapturedUpTo(ps.services, floor)
  }

  /** Snapshots on disk, with a recorded counter or from before it was recorded. */
  ghost predicate SavedCovered(w: World) { forall ps <- w.saved :: FloorCovers(ps) }

  /** A floor that has been applied covers the ids of its provider. */
  ghost predicate FloorsCover(w: World) {
    w.restoring.Some? ==>
      var r := w.restoring.value;
      && (forall p <- r.states :: FloorCovers(r.states[p]))
      && (forall p <- r.floored :: p in r.states && CapturedUpTo(r.states[p].services, w.counter))
  }

  ghost predicate Inv(w: World) { CounterCovers(w) && SavedCovered(w) && FloorsCover(w) }

  /** The floor of what has just been exported covers it, even when the counter is zero. */
  lemma ExportCovered(services: map<string, Captured>, counter: nat)
    requires CapturedUpTo(services, counter)
    ensures FloorCovers(ProviderState(services, counter))
  {
    hide IsLegacyFloor;
  }

  lemma OldCovered(services: map<string, Captured>)
    requires AllShown(services)
    ensures FloorCovers(ProviderState(services, 0))
  {
    forall floor | IsIdFloor(ProviderState(services, 0), floor) ensures CapturedUpTo(services, floor) {
      LegacyCoversExactly(services, floor);
    }
  }

  lemma MoreUpTo(services: map<string, Captured>, n: nat, m: nat)
    requires CapturedUpTo(services, n) && n <= m
    ensures CapturedUpTo(services, m)
  {
  }

  lemma CounterKeepsCovering(w: World, step: Step)
    requires Inv(w) && Enabled(w, step)
    ensures CounterCovers(Apply(w, step))
  {
    hide IsIdFloor, SavedCovered;
  }

  lemma SavedStaysCovered(w: World, step: Step)
    requires Inv(w) && Enabled(w, step)
    ensures SavedCovered(Apply(w, step))
  {
    if step.EndExport? { ExportCovered(w.exporting.value.captured, w.counter); }
    if step.FoundOld? { OldCovered(step.services); }
    hide IsIdFloor, FloorsCover, FloorCovers, CapturedUpTo, IdsUpTo, AllShown;
  }

  lemma FloorsKeepCovering(w: World, step: Step)
    requires Inv(w) && Enabled(w, step)
    ensures FloorsCover(Apply(w, step))
  {
    hide CounterCovers, CapturedUpTo, AllShown;
    if w.restoring.Some? && Apply(w, step).restoring.Some? {
      var r := w.restoring.value;
      forall p | p in r.floored ensures CapturedUpTo(r.states[p].services, Apply(w, step).counter) || step.Restart? {
        MoreUpTo(r.states[p].services, w.counter, Apply(w, step).counter);
      }
      if step.Floor? {
        assert CapturedUpTo(r.states[step.provider].services, step.floor);
        MoreUpTo(r.states[step.provider].services, step.floor, Apply(w, step).counter);
      }
    }
    hide IsIdFloor;
  }

  lemma StepKeepsInv(w: World, step: Step)
    requires Inv(w) && Enabled(w, step)
    ensures Inv(Apply(w, step))
  {
    CounterKeepsCovering(w, step);
    SavedStaysCovered(w, step);
    FloorsKeepCovering(w, step);
  }

  /** The steps can be taken one after the other, starting with a new process and no snapshots. */
  ghost predicate Possible(steps: seq<Step>)
    decreases |steps|, 0
  {
    var n := |steps|;
    n > 0 ==> Possible(steps[..n - 1]) && Enabled(After(steps[..n - 1]), steps[n - 1])
  }

  ghost function After(steps: seq<Step>): World
    requires Possible(steps)
    decreases |steps|, 1
  {
    var n := |steps|;
    if n == 0 then World(0, map[], {}, {}, [], None, None) else Apply(After(steps[..n - 1]), steps[n - 1])
  }

  lemma {:induction false} RunKeepsInv(steps: seq<Step>)
    requires Possible(steps)
    ensures Inv(After(steps))
  {
    var n := |steps|;
    if n > 0 {
      RunKeepsInv(steps[..n - 1]);
      StepKeepsInv(After(steps[..n - 1]), steps[n - 1]);
    }
  }

  /** No snapshot of a restore has an id as high. */
  ghost predicate RestoredBelow(r: Restore, id: nat) {
    forall p <- r.states :: forall s <- r.states[p].services ::
      forall other <- r.states[p].services[s].ids :: other < id
  }

  /**
   Whatever was saved, restarted and restored before, an id minted next is new: no resource has it, this
   process has not minted it or brought it back, and once the floors of a restore under way have been
   applied, none of its snapshots has an id as high.
   */
  lemma NoIdIsReused(steps: seq<Step>)
    requires Possible(steps) && Enabled(After(steps), Mint)
    ensures var w := After(steps); var id := Apply(w, Mint).counter;
      && (forall key :: id !in Ids(w, key)) && id !in w.flying && (forall other <- w.known :: other < id)
      && (AllFloored(w) ==> RestoredBelow(w.restoring.value, id))
  {
    hide Possible, After;
    RunKeepsInv(steps);
  }

  // ---- One process on its own

  class Process {
    var counter: nat
    var live: map<Key, set<nat>>

    /** The floors applied and the services brought back so far, in order. */
    ghost var log: seq<Step>

    constructor ()
      ensures counter == 0 && live == map[] && log == []
    {
      counter, live, log := 0, map[], [];
    }

    /** The counter moves up, never back; without other callers the swap succeeds at once. */
    method AdvanceTo(n: nat)
      modifies this`counter
      ensures counter == IdCounter.RaisedTo(old(counter), n)
    {
      if counter < n { counter := n; }
    }

    /** Captures service by service; the counter is read after the last. */
    method ExportProvider(provider: string, names: seq<string>, text: string -> string) returns (ps: ProviderState)
      ensures ps.idCounter == counter
      ensures ps.services == map s | s in names :: Captured(IdsOf(Key(provider, s)), text(s))
    {
      var services: map<string, Captured> := map[];
      var i := 0;
      while i < |names|
        invariant 0 <= i <= |names|
        invariant services == map s | s in names[..i] :: Captured(IdsOf(Key(provider, s)), text(s))
      {
        services := services[names[i] := Captured(IdsOf(Key(provider, names[i])), text(names[i]))];
        assert names[..i + 1] == names[..i] + [names[i]];
        i := i + 1;
      }
      assert names[..i] == names;
      ps := ProviderState(services, counter);
    }

    function IdsOf(key: Key): set<nat>
      reads this
    {
      if key in live then live[key] else {}
    }

    /** A service that a snapshot has and the running target exposes. */
    predicate Brought(states: map<string, ProviderState>, targets: map<string, set<string>>, key: Key) {
      && key.provider in states && key.provider in targets
      && key.service in states[key.provider].services && key.service in targets[key.provider]
    }

    method ApplyFloor(p: string, ps: ProviderState)
      modifies this`counter, this`log
      ensures exists floor: nat :: IsIdFloor(ps, floor) && log == old(log) + [Floor(p, floor)] &&
                                   counter == IdCounter.RaisedTo(old(counter), floor)
    {
      var floor := IdFloor(ps);
      AdvanceTo(floor);
      log := log + [Floor(p, floor)];
    }

    method BringBack(key: Key, ids: set<nat>)
      modifies this`live, this`log
      ensures live == old(live)[key := ids] && log == old(log) + [Bring(key)]
    {
      live := live[key := ids];
      log := log + [Bring(key)];
    }

    /** The floor has been applied to the counter, which is one of them unless it is where it was. */
    ghost predicate Raised(states: map<string, ProviderState>, names: set<string>, before: nat)
      requires names <= states.Keys
      reads this`counter
    {
      && counter >= before
      && (forall p <- names :: exists floor: nat :: floor <= counter && IsIdFloor(states[p], floor))
      && (counter == before || exists p <- names :: IsIdFloor(states[p], counter))
    }

    method ApplyFloors(states: map<string, ProviderState>)
      modifies this`counter, this`log
      ensures Raised(states, states.Keys, old(counter))
      ensures FloorsFrom(old(log), log)
    {
      hide IsIdFloor;
      var todo := states.Keys;
      while todo != {}
        invariant todo <= states.Keys
        invariant Raised(states, states.Keys - todo, old(counter))
        invariant FloorsFrom(old(log), log)
        decreases todo
      {
        var p :| p in todo;
        todo := todo - {p};
        ApplyFloor(p, states[p]);
      }
    }

    method BringAll(states: map<string, ProviderState>, targets: map<string, set<string>>)
      modifies this`live, this`log
      ensures forall key | Brought(states, targets, key) :: IdsOf(key) == states[key.provider].services[key.service].ids
      ensures forall key | !Brought(states, targets, key) :: IdsOf(key) == old(IdsOf(key))
      ensures BringsFrom(old(log), log)
    {
      var keys := set p, s | p in states && p in targets && s in states[p].services && s in targets[p] :: Key(p, s);
      ghost var all := keys;
      while keys != {}
        invariant keys <= all
        invariant forall key | key in all - keys :: IdsOf(key) == states[key.provider].services[key.service].ids
        invariant forall key | key !in all - keys :: IdsOf(key) == old(IdsOf(key))
        invariant BringsFrom(old(log), log)
        decreases keys
      {
        var key :| key in keys;
        keys := keys - {key};
        BringBack(key, states[key.provider].services[key.service].ids);
      }
    }

    /**
     All floors first, those of providers without a target too, so that the counter ends at the highest of
     them; then the services of the running targets, or those made on demand, one by one.
     */
    method RestoreAll(states: map<string, ProviderState>, targets: map<string, set<string>>)
      modifies this
      ensures Raised(states, states.Keys, old(counter))
      ensures forall key | Brought(states, targets, key) :: IdsOf(key) == states[key.provider].services[key.service].ids
      ensures forall key | !Brought(states, targets, key) :: IdsOf(key) == old(IdsOf(key))
      ensures exists floored :: FloorsFrom(old(log), floored) && BringsFrom(floored, log)
    {
      hide IsIdFloor, FloorsFrom, BringsFrom, Brought;
      ApplyFloors(states);
      ghost var floored := log;
      BringAll(states, targets);
      assert FloorsFrom(old(log), floored) && BringsFrom(floored, log);
    }
  }

  /** Floors alone have been applied. */
  ghost predicate FloorsFrom(before: seq<Step>, after: seq<Step>) {
    before <= after && forall i :: |before| <= i < |after| ==> after[i].Floor?
  }

  /** Services alone have been brought back. */
  ghost predicate BringsFrom(before: seq<Step>, after: seq<Step>) {
    before <= after && forall i :: |before| <= i < |after| ==> after[i].Bring?
  }
}
