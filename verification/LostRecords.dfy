/**
 Runs in which two callers with one token both create (internal/idempotency/idempotency.go:72-160): one for
 each of the conditions under which a token's record stays.
 */
module LostRecords {
  import opened Common
  import opened CreateRuns
  import opened Creates
  import opened TokenStore

  /** One step more. */
  lemma Extend(ttl: int, steps: seq<Step>, step: Step)
    requires Possible(ttl, steps) && Enabled(After(ttl, steps), step)
    ensures LocksExist(After(ttl, steps))
    ensures Possible(ttl, steps + [step]) && After(ttl, steps + [step]) == Apply(After(ttl, steps), step)
  {
    assert (steps + [step])[..|steps|] == steps;
  }

  /** A call that finds the lock free, up to the lookup. */
  function Arrive(c: nat, t: string, now: int): seq<Step> { [Begin(t, now), Enter(c), Acquire(c), Lookup(c)] }

  /** The rest of a call that creates. */
  function Create(c: nat, id: string): seq<Step> { [CreateDone(c, id), Put(c), Unlock(c), Leave(c)] }

  /** No call is inside a lock. */
  ghost predicate Idle(w: World) { w.store.locks == map[] && w.holders == map[] }

  /** After the lookup of the new call, which holds the lock. */
  ghost predicate Looked(w: World, v: World, t: string, now: int) {
    var l := |w.store.refs|;
    var (s, id) := LookupEntry(w.store, t, now);
    && v.calls == w.calls + [Call(t, now, if id.Some? then Replaying(l, id.value) else Creating(l))]
    && v.store == s.(locks := map[t := l], refs := w.store.refs + [1])
    && v.holders == map[l := |w.calls|] && v.created == w.created
  }

  lemma ArriveSteps(w: World, t: string, now: int)
    requires Idle(w) && t != "" && LocksExist(w)
    ensures var c := |w.calls|;
      var w1 := BeginStep(w, t, now);
      LocksExist(w1) && Enabled(w1, Enter(c)) && (
      var w2 := EnterStep(w1, c);
      Enabled(w2, Acquire(c)) && (
      var w3 := AcquireStep(w2, c);
      Enabled(w3, Lookup(c)) && Looked(w, LookupStep(w3, c), t, now)))
  {
  }

  lemma FourSteps<T>(s: seq<T>, a: T, b: T, c: T, d: T)
    ensures s + [a] + [b] + [c] + [d] == s + [a, b, c, d]
  {
  }

  lemma ArriveRun(ttl: int, steps: seq<Step>, t: string, now: int)
    requires Possible(ttl, steps) && Idle(After(ttl, steps)) && t != ""
    ensures var c := |After(ttl, steps).calls|; var longer := steps + Arrive(c, t, now);
      Possible(ttl, longer) && Looked(After(ttl, steps), After(ttl, longer), t, now)
  {
    var w := After(ttl, steps);
    var c := |w.calls|;
    hide After, Possible, BeginStep, EnterStep, AcquireStep, LookupStep, Looked, Inv, CountOk;
    Extend(ttl, steps, Begin(t, now));
    ArriveSteps(w, t, now);
    Extend(ttl, steps + [Begin(t, now)], Enter(c));
    Extend(ttl, steps + [Begin(t, now)] + [Enter(c)], Acquire(c));
    Extend(ttl, steps + [Begin(t, now)] + [Enter(c)] + [Acquire(c)], Lookup(c));
    FourSteps(steps, Begin(t, now), Enter(c), Acquire(c), Lookup(c));
  }

  /** The call holds its lock alone and is creating. */
  ghost predicate Alone(w: World, c: nat, t: string, now: int, l: nat) {
    && c < |w.calls| && w.calls[c] == Call(t, now, Creating(l))
    && w.store.locks == map[t := l] && l < |w.store.refs| && w.store.refs[l] == 1
    && w.holders == map[l := c]
  }

  /** The call has created and recorded the id, and has left. */
  ghost predicate Recorded(w: World, v: World, t: string, now: int, id: string) {
    && Idle(v) && |v.calls| == |w.calls|
    && v.created == w.created[t := Created(w, t) + [id]]
    && v.store.ttl == w.store.ttl && v.store.entries == RecordEntry(w.store, t, now, id).entries
  }

  /** The call has recorded the id and let the lock go, and is about to leave it. */
  ghost predicate Unlocked(w: World, v: World, c: nat, t: string, now: int, l: nat, id: string) {
    && |v.calls| == |w.calls| && c < |v.calls| && v.calls[c] == Call(t, now, Leaving(l, Minted(id)))
    && v.holders == map[] && v.created == w.created[t := Created(w, t) + [id]]
    && v.store == RecordEntry(w.store, t, now, id)
  }

  lemma CreateSteps(w: World, c: nat, t: string, now: int, l: nat, id: string)
    requires Alone(w, c, t, now, l)
    ensures var w1 := CreateStep(w, c, id);
      Enabled(w1, Put(c)) && (
      var w2 := PutStep(w1, c);
      Enabled(w2, Unlock(c)) && (
      var w3 := UnlockStep(w2, c);
      Enabled(w3, Leave(c)) && Unlocked(w, w3, c, t, now, l, id)))
  {
    PutEffect(CreateStep(w, c, id), c);
    assert map[l := c] - {l} == map[];
    hide RecordEntry, PutStep;
  }

  lemma LastStep(w: World, v: World, c: nat, t: string, now: int, l: nat, id: string)
    requires Alone(w, c, t, now, l) && Unlocked(w, v, c, t, now, l, id) && LocksExist(v)
    ensures Recorded(w, LeaveStep(v, c), t, now, id)
  {
    KeepsLocks(w.store, t, now, id);
    assert map[t := l] - {t} == map[];
    hide RecordEntry;
  }

  lemma PutEffect(w: World, c: nat)
    requires Enabled(w, Put(c))
    ensures var v := PutStep(w, c); var k := w.calls[c]; var p := k.phase;
      && v.store == RecordEntry(w.store, k.token, k.now, p.id)
      && v.created == w.created && v.holders == w.holders
      && v.calls == w.calls[c := k.(phase := Unlocking(p.lock, Minted(p.id)))]
  {
  }

  lemma KeepsLocks(s: Store, t: string, now: int, id: string)
    ensures RecordEntry(s, t, now, id).(entries := s.entries) == s
  {
  }

  lemma CreateRun(ttl: int, steps: seq<Step>, c: nat, t: string, now: int, l: nat, id: string)
    requires Possible(ttl, steps) && Alone(After(ttl, steps), c, t, now, l)
    ensures var longer := steps + Create(c, id);
      Possible(ttl, longer) && Recorded(After(ttl, steps), After(ttl, longer), t, now, id)
  {
    var w := After(ttl, steps);
    hide After, Possible, CreateStep, PutStep, UnlockStep, LeaveStep, Recorded, Unlocked, Alone, Inv, CountOk,
         LocksExist;
    hide BeginStep, EnterStep, AcquireStep, LookupStep, GoneStep, ForgetStep, Move, Created;
    Extend(ttl, steps, CreateDone(c, id)) by { CanCreate(w, c, t, now, l); }
    CreateSteps(w, c, t, now, l, id);
    var created := steps + [CreateDone(c, id)];
    Extend(ttl, created, Put(c));
    Extend(ttl, created + [Put(c)], Unlock(c));
    var unlocked := created + [Put(c)] + [Unlock(c)];
    Extend(ttl, unlocked, Leave(c));
    LastStep(w, After(ttl, unlocked), c, t, now, l, id);
    FourSteps(steps, CreateDone(c, id), Put(c), Unlock(c), Leave(c));
  }

  lemma CanCreate(w: World, c: nat, t: string, now: int, l: nat)
    requires Alone(w, c, t, now, l)
    ensures forall id :: Enabled(w, CreateDone(c, id))
  {
  }

  // ---- Whole calls

  /** A call that creates: c is its number. */
  function Once(c: nat, t: string, now: int, id: string): seq<Step> { Arrive(c, t, now) + Create(c, id) }

  /** No record of the token is found at this time. */
  predicate NoRecord(s: Store, t: string, now: int) { t !in s.entries || Expired(s.entries[t], now) }

  /** One more call has created under the token, and its record is there if there are records at all. */
  ghost predicate OneMore(w: World, v: World, t: string, now: int, id: string) {
    && Idle(v) && |v.calls| == |w.calls| + 1 && v.store.ttl == w.store.ttl
    && Created(v, t) == Created(w, t) + [id]
    && (if w.store.ttl > 0 then t in v.store.entries && v.store.entries[t] == Entry(id, now + w.store.ttl)
        else t !in v.store.entries)
  }

  lemma LookedAndRecorded(w: World, u: World, v: World, t: string, now: int, id: string)
    requires NoRecord(w.store, t, now) && Looked(w, u, t, now) && Recorded(u, v, t, now, id)
    ensures Alone(u, |w.calls|, t, now, |w.store.refs|) && OneMore(w, v, t, now, id)
  {
  }

  lemma IsAlone(w: World, u: World, t: string, now: int)
    requires NoRecord(w.store, t, now) && Looked(w, u, t, now)
    ensures Alone(u, |w.calls|, t, now, |w.store.refs|)
  {
  }

  lemma OnceRun(ttl: int, steps: seq<Step>, t: string, now: int, id: string)
    requires Possible(ttl, steps) && Idle(After(ttl, steps)) && t != "" && NoRecord(After(ttl, steps).store, t, now)
    ensures var longer := steps + Once(|After(ttl, steps).calls|, t, now, id);
      Possible(ttl, longer) && OneMore(After(ttl, steps), After(ttl, longer), t, now, id)
  {
    hide After, Possible, Idle, NoRecord, Looked, Alone, Recorded, OneMore, Arrive, Create, Inv, CountOk;
    var w := After(ttl, steps);
    var c := |w.calls|;
    ArriveRun(ttl, steps, t, now);
    var middle := steps + Arrive(c, t, now);
    IsAlone(w, After(ttl, middle), t, now);
    CreateRun(ttl, middle, c, t, now, |w.store.refs|, id);
    LookedAndRecorded(w, After(ttl, middle), After(ttl, middle + Create(c, id)), t, now, id);
    assert middle + Create(c, id) == steps + Once(c, t, now, id);
  }

  lemma NothingYet(ttl: int)
    ensures Possible(ttl, []) && After(ttl, []) == Empty(ttl)
  {
  }

  /** One call has created; its record is found until the ttl is over. */
  ghost predicate HasOne(ttl: int, w: World, t: string, now: int, id: string) {
    && Idle(w) && |w.calls| == 1 && Created(w, t) == [id] && w.store.ttl == ttl
    && (if ttl > 0 then t in w.store.entries && w.store.entries[t] == Entry(id, now + ttl) else t !in w.store.entries)
  }

  lemma OneAfterNone(ttl: int, v: World, t: string, now: int, id: string)
    requires OneMore(Empty(ttl), v, t, now, id)
    ensures HasOne(ttl, v, t, now, id)
  {
  }

  lemma TwoAfterOne(ttl: int, w: World, v: World, t: string, now: int, later: int, a: string, b: string)
    requires HasOne(ttl, w, t, now, a) && OneMore(w, v, t, later, b)
    ensures Created(v, t) == [a, b]
  {
  }

  lemma WhatOneMeans(ttl: int, w: World, t: string, now: int, later: int, id: string)
    requires HasOne(ttl, w, t, now, id)
    ensures Idle(w) && |w.calls| == 1 && (NoRecord(w.store, t, later) <==> ttl <= 0 || later > now + ttl)
  {
  }

  /** After one call that created, from the start. */
  lemma FirstRun(ttl: int, t: string, now: int, id: string)
    requires t != ""
    ensures Possible(ttl, Once(0, t, now, id)) && HasOne(ttl, After(ttl, Once(0, t, now, id)), t, now, id)
  {
    NothingYet(ttl);
    hide After, Possible, OneMore, Once, HasOne, Inv, CountOk;
    OnceRun(ttl, [], t, now, id);
    assert [] + Once(0, t, now, id) == Once(0, t, now, id);
    OneAfterNone(ttl, After(ttl, Once(0, t, now, id)), t, now, id);
  }

  // ---- Two creations

  lemma SecondRun(ttl: int, t: string, now: int, later: int, a: string, b: string)
    requires t != "" && (ttl <= 0 || later > now + ttl)
    ensures var run := Once(0, t, now, a) + Once(1, t, later, b);
      Possible(ttl, run) && Created(After(ttl, run), t) == [a, b]
  {
    hide After, Possible, Once, Inv, CountOk, HasOne, OneMore, NoRecord, Idle, Created;
    FirstRun(ttl, t, now, a);
    var first := Once(0, t, now, a);
    var w := After(ttl, first);
    WhatOneMeans(ttl, w, t, now, later, a);
    OnceRun(ttl, first, t, later, b);
    TwoAfterOne(ttl, w, After(ttl, first + Once(1, t, later, b)), t, now, later, a, b);
  }

  /** Without a positive ttl nothing is recorded: any two calls, even at one time, create twice. */
  lemma TwoWithoutTtl(ttl: int, t: string, now: int, a: string, b: string)
    requires t != "" && ttl <= 0
    ensures var run := Once(0, t, now, a) + Once(1, t, now, b);
      Possible(ttl, run) && Created(After(ttl, run), t) == [a, b]
  {
    SecondRun(ttl, t, now, now, a, b);
  }

  /** A call whose clock is more than the ttl after the first one's creates again. */
  lemma TwoWhenLate(ttl: int, t: string, now: int, later: int, a: string, b: string)
    requires t != "" && ttl > 0 && later > now + ttl
    ensures var run := Once(0, t, now, a) + Once(1, t, later, b);
      Possible(ttl, run) && Created(After(ttl, run), t) == [a, b]
  {
    SecondRun(ttl, t, now, later, a, b);
  }

  /** The resource is forgotten, and its record with it. */
  lemma Forgotten(ttl: int, w: World, t: string, now: int, id: string)
    requires HasOne(ttl, w, t, now, id)
    ensures var v := ForgetStep(w, id);
      && Idle(v) && |v.calls| == 1 && Created(v, t) == [id] && NoRecord(v.store, t, now)
  {
  }

  lemma SecondAfter(v: World, u: World, t: string, now: int, a: string, b: string)
    requires Created(v, t) == [a] && OneMore(v, u, t, now, b)
    ensures Created(u, t) == [a, b]
  {
  }

  /** A call after a Forget of the resource creates again, with a ttl and at the same time. */
  lemma TwoWhenForgotten(ttl: int, t: string, now: int, a: string, b: string)
    requires t != "" && ttl > 0
    ensures var run := Once(0, t, now, a) + [Forget(a)] + Once(1, t, now, b);
      Possible(ttl, run) && Created(After(ttl, run), t) == [a, b]
  {
    hide After, Possible, Once, Inv, CountOk, ForgetStep, HasOne, OneMore, NoRecord, Idle, Created;
    FirstRun(ttl, t, now, a);
    var first := Once(0, t, now, a);
    Forgotten(ttl, After(ttl, first), t, now, a);
    Extend(ttl, first, Forget(a));
    var longer := first + [Forget(a)];
    OnceRun(ttl, longer, t, now, b);
    SecondAfter(After(ttl, longer), After(ttl, longer + Once(1, t, now, b)), t, now, a, b);
  }

  /** The second call found the record, and its replay found the resource gone. */
  lemma Gone(ttl: int, w: World, u: World, t: string, now: int, a: string)
    requires HasOne(ttl, w, t, now, a) && ttl > 0 && Looked(w, u, t, now)
    ensures Enabled(u, ReplayGone(1))
    ensures Alone(GoneStep(u, 1), 1, t, now, |w.store.refs|) && Created(GoneStep(u, 1), t) == [a]
  {
  }

  lemma SecondRecorded(v: World, u: World, t: string, now: int, a: string, b: string)
    requires Created(v, t) == [a] && Recorded(v, u, t, now, b)
    ensures Created(u, t) == [a, b]
  {
  }

  /** A call whose replay finds the recorded resource gone creates again, with a ttl and at the same time. */
  lemma TwoWhenGone(ttl: int, t: string, now: int, a: string, b: string)
    requires t != "" && ttl > 0
    ensures var run := Once(0, t, now, a) + Arrive(1, t, now) + [ReplayGone(1)] + Create(1, b);
      Possible(ttl, run) && Created(After(ttl, run), t) == [a, b]
  {
    hide After, Possible, Once, Arrive, Create, Inv, CountOk, Looked, GoneStep, Alone, HasOne, Recorded, Idle, Created;
    FirstRun(ttl, t, now, a);
    var first := Once(0, t, now, a);
    var w := After(ttl, first);
    WhatOneMeans(ttl, w, t, now, now, a);
    ArriveRun(ttl, first, t, now);
    var looked := first + Arrive(1, t, now);
    Gone(ttl, w, After(ttl, looked), t, now, a);
    Extend(ttl, looked, ReplayGone(1));
    var gone := looked + [ReplayGone(1)];
    CreateRun(ttl, gone, 1, t, now, |w.store.refs|, b);
    SecondRecorded(After(ttl, gone), After(ttl, gone + Create(1, b)), t, now, a, b);
  }

  /**
   When none of this happens there is one creation: with a positive ttl, clocks within one ttl of each
   other, no Forget of the resource and no replay that finds it gone, the token creates at most once, at
   most one caller is told it did, and every caller that is told an id is told the same one.
   */
  lemma OneCreation(ttl: int, steps: seq<Step>, token: string, lo: int)
    requires Possible(ttl, steps) && token != "" && ttl > 0 && Undisturbed(ttl, steps, token, lo)
    ensures var w := After(ttl, steps);
      && |Created(w, token)| <= 1 && |Minters(w, token)| <= 1
      && (forall c, d :: 0 <= c < |w.calls| && 0 <= d < |w.calls| && Told(w, c, token) && Told(w, d, token) ==>
            CallId(w.calls[c]) == CallId(w.calls[d]))
  {
    RecordStays(ttl, steps, token, lo);
    CreatesOnce(ttl, steps, token);
    hide After, Possible, Undisturbed, OnTime, Minters, Losses;
  }

  /** A call with the token that carries or has returned an id. */
  predicate Told(w: World, c: nat, token: string)
    requires c < |w.calls|
  {
    w.calls[c].token == token && CallId(w.calls[c]).Some?
  }
}
