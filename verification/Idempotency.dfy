/**
 Idempotent creates (internal/idempotency/idempotency.go): the store's critical sections, as
 functions on its state and as the methods of an object that has that state.
 */
module TokenStore {
  import opened Common

  /** A token's recorded id and when it expires. */
  datatype Entry = Entry(id: string, expireAt: int)

  /**
   The store between critical sections. locks maps a token to its lock object, an index into
   refs, which counts the callers holding or waiting for it.
   */
  datatype Store = Store(ttl: int, entries: map<string, Entry>, locks: map<string, nat>, refs: seq<int>)

  predicate Expired(e: Entry, now: int) { now > e.expireAt }

  /** The lock of a token, created when it has none, with one more caller. */
  function EnterLock(s: Store, token: string): (r: (Store, nat))
    requires token in s.locks ==> s.locks[token] < |s.refs|
    ensures r.1 < |r.0.refs|
  {
    if token in s.locks then
      var l := s.locks[token];
      (s.(refs := s.refs[l := s.refs[l] + 1]), l)
    else
      (s.(locks := s.locks[token := |s.refs|], refs := s.refs + [1]), |s.refs|)
  }

  /** One caller less; the lock leaves the table with its last caller. */
  function LeaveLock(s: Store, token: string, l: nat): Store
    requires l < |s.refs|
  {
    var refs := s.refs[l := s.refs[l] - 1];
    s.(refs := refs, locks := if refs[l] == 0 then s.locks - {token} else s.locks)
  }

  /** The id recorded under a token unless it has expired, when it is dropped. */
  function LookupEntry(s: Store, token: string, now: int): (Store, Option<string>) {
    if token !in s.entries then (s, None)
    else if Expired(s.entries[token], now) then (s.(entries := s.entries - {token}), None)
    else (s, Some(s.entries[token].id))
  }

  /** Records an id for the store's ttl and drops what has expired; no positive ttl records nothing. */
  function RecordEntry(s: Store, token: string, now: int, id: string): Store {
    if s.ttl <= 0 then s
    else
      var kept := map k | k in s.entries && !Expired(s.entries[k], now) :: s.entries[k];
      s.(entries := kept[token := Entry(id, now + s.ttl)])
  }

  /** Drops every token recorded for an id. */
  function ForgetEntries(s: Store, id: string): Store {
    s.(entries := map k | k in s.entries && s.entries[k].id != id :: s.entries[k])
  }

  class IdempotencyStore {
    const ttl: int
    var entries: map<string, Entry>
    var locks: map<string, nat>
    var refs: seq<int>

    constructor (ttl: int)
      ensures Now() == Store(ttl, map[], map[], [])
    {
      this.ttl := ttl;
      entries, locks, refs := map[], map[], [];
    }

    ghost function Now(): Store
      reads this
    {
      Store(ttl, entries, locks, refs)
    }

    method Enter(token: string) returns (l: nat)
      requires token in locks ==> locks[token] < |refs|
      modifies this
      ensures (Now(), l) == EnterLock(old(Now()), token)
    {
      if token !in locks {
        locks := locks[token := |refs|];
        refs := refs + [0];
      }
      l := locks[token];
      refs := refs[l := refs[l] + 1];
      assert token !in old(locks) ==> refs == old(refs) + [1];
    }

    method Leave(token: string, l: nat)
      requires l < |refs|
      modifies this
      ensures Now() == LeaveLock(old(Now()), token, l)
    {
      refs := refs[l := refs[l] - 1];
      if refs[l] == 0 { locks := locks - {token}; }
    }

    method Lookup(token: string, now: int) returns (id: Option<string>)
      modifies this`entries
      ensures (Now(), id) == LookupEntry(old(Now()), token, now)
    {
      if token !in entries { return None; }
      var e := entries[token];
      if now > e.expireAt {
        entries := entries - {token};
        return None;
      }
      id := Some(e.id);
    }

    method Put(token: string, now: int, id: string)
      modifies this`entries
      ensures Now() == RecordEntry(old(Now()), token, now, id)
    {
      if ttl <= 0 { return; }
      var todo := entries.Keys;
      while todo != {}
        invariant todo <= old(entries).Keys
        invariant entries ==
                  map k | k in old(entries) && (k in todo || !Expired(old(entries)[k], now)) :: old(entries)[k]
        decreases todo
      {
        var k :| k in todo;
        todo := todo - {k};
        if now > entries[k].expireAt { entries := entries - {k}; }
      }
      entries := entries[token := Entry(id, now + ttl)];
    }

    method Forget(id: string)
      modifies this`entries
      ensures Now() == ForgetEntries(old(Now()), id)
    {
      var todo := entries.Keys;
      while todo != {}
        invariant todo <= old(entries).Keys
        invariant entries == map k | k in old(entries) && (k in todo || old(entries)[k].id != id) :: old(entries)[k]
        decreases todo
      {
        var k :| k in todo;
        todo := todo - {k};
        if entries[k].id == id { entries := entries - {k}; }
      }
    }
  }
}

/**
 Every interleaving of Do calls. Each call goes through its phases one atomic step at a time;
 what replay and create answer is left to the surroundings.
 */
module Creates {
  import opened Common
  import opened TokenStore

  datatype Outcome = Replayed(id: string) | Minted(id: string) | Error

  datatype Phase =
    | Arrived
    | Waiting(lock: nat)
    | Holding(lock: nat)
    | Replaying(lock: nat, id: string)
    | Creating(lock: nat)
    | Recording(lock: nat, id: string)
    | Unlocking(lock: nat, outcome: Outcome)
    | Leaving(lock: nat, outcome: Outcome)
    | Finished(outcome: Outcome)

  /** One Do call: its token, its clock reading and where it is. */
  datatype Call = Call(token: string, now: int, phase: Phase)

  /**
   The store, the calls so far, the lock holders, and two histories by token: the ids created
   under it, and how often its recorded id was lost.
   */
  datatype World = World(
    store: Store,
    calls: seq<Call>,
    holders: map<nat, nat>,
    created: map<string, seq<string>>,
    losses: map<string, nat>)

  /** One atomic step of a call c, or a Forget. */
  datatype Step =
    | Begin(token: string, now: int)
    | Direct(c: nat, outcome: Outcome)
    | Enter(c: nat)
    | Acquire(c: nat)
    | Lookup(c: nat)
    | ReplayDone(c: nat)
    | ReplayGone(c: nat)
    | ReplayFailed(c: nat)
    | CreateDone(c: nat, id: string)
    | CreateFailed(c: nat)
    | Put(c: nat)
    | Unlock(c: nat)
    | Leave(c: nat)
    | Forget(id: string)

  /** The call a step belongs to is in the phase the step starts from. */
  predicate Enabled(w: World, step: Step) {
    match step
    case Begin(_, _) => true
    case Forget(_) => true
    case Direct(c, _) => c < |w.calls| && w.calls[c].phase.Arrived? && w.calls[c].token == ""
    case Enter(c) => c < |w.calls| && w.calls[c].phase.Arrived? && w.calls[c].token != ""
    case Acquire(c) => c < |w.calls| && w.calls[c].phase.Waiting? && w.calls[c].phase.lock !in w.holders
    case Lookup(c) => c < |w.calls| && w.calls[c].phase.Holding?
    case ReplayDone(c) => c < |w.calls| && w.calls[c].phase.Replaying?
    case ReplayGone(c) => c < |w.calls| && w.calls[c].phase.Replaying?
    case ReplayFailed(c) => c < |w.calls| && w.calls[c].phase.Replaying?
    case CreateDone(c, _) => c < |w.calls| && w.calls[c].phase.Creating?
    case CreateFailed(c) => c < |w.calls| && w.calls[c].phase.Creating?
    case Put(c) => c < |w.calls| && w.calls[c].phase.Recording?
    case Unlock(c) => c < |w.calls| && w.calls[c].phase.Unlocking?
    case Leave(c) => c < |w.calls| && w.calls[c].phase.Leaving?
  }

  function Created(w: World, token: string): seq<string> { if token in w.created then w.created[token] else [] }

  function Losses(w: World, token: string): nat { if token in w.losses then w.losses[token] else 0 }

  function Move(w: World, c: nat, phase: Phase): World
    requires c < |w.calls|
  {
    w.(calls := w.calls[c := w.calls[c].(phase := phase)])
  }

  /** One more loss for every token that had an entry in before and has none, or lost says so. */
  function Lose(w: World, tokens: set<string>): World {
    w.(losses := map t | t in w.losses.Keys + tokens :: Losses(w, t) + if t in tokens then 1 else 0)
  }

  /** Tokens whose entries a step dropped. */
  function Dropped(before: Store, after: Store): set<string> {
    set t | t in before.entries && t !in after.entries
  }

  /** The call has entered its lock and not left it. */
  predicate Inside(k: Call) { !k.phase.Arrived? && !k.phase.Finished? }

  /** Every lock a call or the table names is an object that exists. */
  ghost predicate LocksExist(w: World) {
    && (forall t <- w.store.locks :: w.store.locks[t] < |w.store.refs|)
    && (forall c :: 0 <= c < |w.calls| && Inside(w.calls[c]) ==> w.calls[c].phase.lock < |w.store.refs|)
  }

  function BeginStep(w: World, token: string, now: int): World {
    w.(calls := w.calls + [Call(token, now, Arrived)])
  }

  ghost function EnterStep(w: World, c: nat): World
    requires c < |w.calls| && LocksExist(w)
  {
    var (s, l) := EnterLock(w.store, w.calls[c].token);
    Move(w.(store := s), c, Waiting(l))
  }

  function AcquireStep(w: World, c: nat): World
    requires c < |w.calls| && w.calls[c].phase.Waiting?
  {
    var l := w.calls[c].phase.lock;
    Move(w.(holders := w.holders[l := c]), c, Holding(l))
  }

  function LookupStep(w: World, c: nat): World
    requires c < |w.calls| && w.calls[c].phase.Holding?
  {
    var (s, id) := LookupEntry(w.store, w.calls[c].token, w.calls[c].now);
    var l := w.calls[c].phase.lock;
    Move(Lose(w.(store := s), Dropped(w.store, s)), c, if id.Some? then Replaying(l, id.value) else Creating(l))
  }

  function GoneStep(w: World, c: nat): World
    requires c < |w.calls| && w.calls[c].phase.Replaying?
  {
    Move(Lose(w, {w.calls[c].token}), c, Creating(w.calls[c].phase.lock))
  }

  function CreateStep(w: World, c: nat, id: string): World
    requires c < |w.calls| && w.calls[c].phase.Creating?
  {
    var t := w.calls[c].token;
    Move(w.(created := w.created[t := Created(w, t) + [id]]), c, Recording(w.calls[c].phase.lock, id))
  }

  function PutStep(w: World, c: nat): World
    requires c < |w.calls| && w.calls[c].phase.Recording?
  {
    var p, t := w.calls[c].phase, w.calls[c].token;
    var s := RecordEntry(w.store, t, w.calls[c].now, p.id);
    var lost := Dropped(w.store, s) + if w.store.ttl <= 0 then {t} else {};
    Move(Lose(w.(store := s), lost), c, Unlocking(p.lock, Minted(p.id)))
  }

  function UnlockStep(w: World, c: nat): World
    requires c < |w.calls| && w.calls[c].phase.Unlocking?
  {
    var p := w.calls[c].phase;
    Move(w.(holders := w.holders - {p.lock}), c, Leaving(p.lock, p.outcome))
  }

  ghost function LeaveStep(w: World, c: nat): World
    requires c < |w.calls| && w.calls[c].phase.Leaving? && LocksExist(w)
  {
    var p := w.calls[c].phase;
    Move(w.(store := LeaveLock(w.store, w.calls[c].token, p.lock)), c, Finished(p.outcome))
  }

  function ForgetStep(w: World, id: string): World {
    var s := ForgetEntries(w.store, id);
    Lose(w.(store := s), Dropped(w.store, s))
  }

  ghost function Apply(w: World, step: Step): World
    requires LocksExist(w) && Enabled(w, step)
  {
    match step
    case Begin(token, now) => BeginStep(w, token, now)
    case Forget(id) => ForgetStep(w, id)
    case Direct(c, outcome) => Move(w, c, Finished(outcome))
    case Enter(c) => EnterStep(w, c)
    case Acquire(c) => AcquireStep(w, c)
    case Lookup(c) => LookupStep(w, c)
    case ReplayDone(c) => Move(w, c, Unlocking(w.calls[c].phase.lock, Replayed(w.calls[c].phase.id)))
    case ReplayGone(c) => GoneStep(w, c)
    case ReplayFailed(c) => Move(w, c, Unlocking(w.calls[c].phase.lock, Error))
    case CreateDone(c, id) => CreateStep(w, c, id)
    case CreateFailed(c) => Move(w, c, Unlocking(w.calls[c].phase.lock, Error))
    case Put(c) => PutStep(w, c)
    case Unlock(c) => UnlockStep(w, c)
    case Leave(c) => LeaveStep(w, c)
  }

  // ---- What every run keeps

  /** The call holds its lock. */
  predicate Holds(k: Call) { Inside(k) && !k.phase.Waiting? && !k.phase.Leaving? }

  /** The calls inside the lock of a token. */
  function Users(w: World, token: string): set<nat> {
    set c | 0 <= c < |w.calls| && Inside(w.calls[c]) && w.calls[c].token == token
  }

  /**
   Calls with one token share one lock object. It is in the table exactly while someone is inside,
   and refs counts those callers.
   */
  ghost predicate LocksOk(w: World) {
    && LocksExist(w)
    && (forall t, u :: t in w.store.locks && u in w.store.locks && t != u ==> w.store.locks[t] != w.store.locks[u])
    && (forall c :: 0 <= c < |w.calls| && Inside(w.calls[c]) ==>
          w.calls[c].token in w.store.locks && w.store.locks[w.calls[c].token] == w.calls[c].phase.lock)
    && (forall t <- w.store.locks :: w.store.refs[w.store.locks[t]] == |Users(w, t)| > 0)
  }

  /** The holder of a lock is the one call past Acquire and before Unlock. */
  ghost predicate HoldersOk(w: World) {
    && (forall l <- w.holders ::
          w.holders[l] < |w.calls| && Holds(w.calls[w.holders[l]]) && w.calls[w.holders[l]].phase.lock == l)
    && (forall c :: 0 <= c < |w.calls| && Holds(w.calls[c]) ==>
          w.calls[c].phase.lock in w.holders && w.holders[w.calls[c].phase.lock] == c)
  }

  function OutcomeId(o: Outcome): Option<string> {
    match o
    case Replayed(id) => Some(id)
    case Minted(id) => Some(id)
    case Error => None
  }

  /** The id a call carries or has returned. */
  function CallId(k: Call): Option<string> {
    match k.phase
    case Replaying(_, id) => Some(id)
    case Recording(_, id) => Some(id)
    case Unlocking(_, o) => OutcomeId(o)
    case Leaving(_, o) => OutcomeId(o)
    case Finished(o) => OutcomeId(o)
    case _ => None
  }

  /** Every id recorded, carried or returned for a token was created under it. */
  ghost predicate IdsOk(w: World) {
    && (forall t <- w.store.entries :: w.store.entries[t].id in Created(w, t))
    && (forall c :: 0 <= c < |w.calls| && w.calls[c].token != "" && CallId(w.calls[c]).Some? ==>
          CallId(w.calls[c]).value in Created(w, w.calls[c].token))
  }

  /** The token's call that is creating, if any, has no standing record behind it. */
  ghost predicate CreatingNow(w: World, token: string) {
    exists c :: 0 <= c < |w.calls| && w.calls[c].token == token && w.calls[c].phase.Creating?
  }

  ghost predicate RecordingNow(w: World, token: string) {
    exists c :: 0 <= c < |w.calls| && w.calls[c].token == token && w.calls[c].phase.Recording?
  }

  /** 1 while the token's last creation stands, recorded or about to be. */
  ghost function Standing(w: World, token: string): (n: nat)
    ensures n <= 1
  {
    if !CreatingNow(w, token) && (RecordingNow(w, token) || token in w.store.entries) then 1 else 0
  }

  /** Creations beyond the standing one are paid for by losses of the token's record. */
  ghost predicate Paid(w: World, token: string) {
    |Created(w, token)| <= Losses(w, token) + Standing(w, token)
  }

  ghost predicate CreationsOk(w: World) { forall t :: Paid(w, t) }

  /** Calls without a token stay outside of all this. */
  ghost predicate TokensOk(w: World) {
    forall c :: 0 <= c < |w.calls| && Inside(w.calls[c]) ==> w.calls[c].token != ""
  }

  ghost predicate Inv(w: World) {
    LocksOk(w) && HoldersOk(w) && IdsOk(w) && CreationsOk(w) && TokensOk(w)
  }

  function Empty(ttl: int): World { World(Store(ttl, map[], map[], []), [], map[], map[], map[]) }

  lemma EmptyOk(ttl: int)
    ensures Inv(Empty(ttl))
  {
  }
}
