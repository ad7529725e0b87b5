/**
 What every interleaving of Do calls keeps (internal/idempotency/idempotency.go:90-206): one lock
 per token, one call at a time inside it, and at most one creation more than losses of its record.
 */
module CreateRuns {
  import opened Common
  import opened TokenStore
  import opened Creates

  // ---- Locks

  /** The same calls are inside the same locks. */
  ghost predicate SameUse(w: World, v: World) {
    && v.store.locks == w.store.locks && v.store.refs == w.store.refs
    && |v.calls| == |w.calls|
    && forall c :: 0 <= c < |w.calls| ==>
         && v.calls[c].token == w.calls[c].token
         && (Inside(v.calls[c]) <==> Inside(w.calls[c]))
         && (Inside(w.calls[c]) ==> v.calls[c].phase.lock == w.calls[c].phase.lock)
  }

  lemma SameUseKeepsLocks(w: World, v: World)
    requires LocksOk(w) && SameUse(w, v)
    ensures LocksOk(v)
  {
    forall t ensures Users(v, t) == Users(w, t) {}
  }

  lemma BeginKeepsLocks(w: World, token: string, now: int)
    requires LocksOk(w)
    ensures LocksOk(BeginStep(w, token, now))
  {
    forall t ensures Users(BeginStep(w, token, now), t) == Users(w, t) {}
  }

  lemma EnterUsers(w: World, c: nat, t: string)
    requires LocksExist(w) && Enabled(w, Enter(c))
    ensures Users(EnterStep(w, c), t) == Users(w, t) + if t == w.calls[c].token then {c} else {}
    ensures c !in Users(w, t)
  {
  }

  lemma EnterCounts(w: World, c: nat, t: string)
    requires LocksOk(w) && Enabled(w, Enter(c)) && t in EnterStep(w, c).store.locks
    ensures EnterStep(w, c).store.refs[EnterStep(w, c).store.locks[t]] == |Users(EnterStep(w, c), t)| > 0
  {
    hide Users;
    if t !in w.store.locks { NoUsers(w, t); }
    EnterUsers(w, c, t);
  }

  lemma EnterKeepsLocks(w: World, c: nat)
    requires LocksOk(w) && Enabled(w, Enter(c))
    ensures LocksOk(EnterStep(w, c))
  {
    hide Users;
    var v := EnterStep(w, c);
    forall t <- v.store.locks
      ensures v.store.refs[v.store.locks[t]] == |Users(v, t)| > 0
    {
      EnterCounts(w, c, t);
    }
  }

  lemma NoUsers(w: World, t: string)
    requires LocksOk(w) && t !in w.store.locks
    ensures Users(w, t) == {}
  {
  }

  lemma LeaveUsers(w: World, c: nat, t: string)
    requires LocksExist(w) && Enabled(w, Leave(c))
    ensures Users(LeaveStep(w, c), t) == Users(w, t) - if t == w.calls[c].token then {c} else {}
    ensures t == w.calls[c].token ==> c in Users(w, t)
  {
  }

  lemma LeaveKeepsLocks(w: World, c: nat)
    requires LocksOk(w) && Enabled(w, Leave(c))
    ensures LocksOk(LeaveStep(w, c))
  {
    hide Users;
    var v := LeaveStep(w, c);
    var t0 := w.calls[c].token;
    LeaveUsers(w, c, t0);
    assert |Users(v, t0)| == |Users(w, t0)| - 1;
    forall d | 0 <= d < |v.calls| && Inside(v.calls[d])
      ensures v.calls[d].token in v.store.locks && v.store.locks[v.calls[d].token] == v.calls[d].phase.lock
    {
      if v.calls[d].token == t0 {
        InUsers(v, d);
      }
    }
    forall t <- v.store.locks
      ensures v.store.refs[v.store.locks[t]] == |Users(v, t)| > 0
    {
      LeaveUsers(w, c, t);
    }
  }

  lemma InUsers(w: World, c: nat)
    requires c < |w.calls| && Inside(w.calls[c])
    ensures c in Users(w, w.calls[c].token)
  {
  }

  // ---- Holders

  /** The same calls hold the same locks; calls may have been added outside. */
  ghost predicate SameHolds(w: World, v: World) {
    && v.holders == w.holders && |w.calls| <= |v.calls|
    && forall c :: 0 <= c < |v.calls| ==>
         && (Holds(v.calls[c]) <==> c < |w.calls| && Holds(w.calls[c]))
         && (Holds(v.calls[c]) ==> v.calls[c].phase.lock == w.calls[c].phase.lock)
  }

  lemma SameHoldsKeepsHolders(w: World, v: World)
    requires HoldersOk(w) && SameHolds(w, v)
    ensures HoldersOk(v)
  {
  }

  lemma AcquireKeepsHolders(w: World, c: nat)
    requires HoldersOk(w) && Enabled(w, Acquire(c))
    ensures HoldersOk(AcquireStep(w, c))
  {
  }

  lemma UnlockKeepsHolders(w: World, c: nat)
    requires HoldersOk(w) && Enabled(w, Unlock(c))
    ensures HoldersOk(UnlockStep(w, c))
  {
  }

  /** No two calls with one token are past Acquire together. */
  lemma MutualExclusion(w: World, c: nat, d: nat)
    requires LocksOk(w) && HoldersOk(w)
    requires c < |w.calls| && d < |w.calls| && w.calls[c].token == w.calls[d].token
    requires Holds(w.calls[c]) && Holds(w.calls[d])
    ensures c == d
  {
    assert w.store.locks[w.calls[c].token] == w.calls[c].phase.lock;
  }

  // ---- Ids

  /** One call moved, or one was added; what it now carries was created under its token. */
  ghost predicate IdsFollow(w: World, v: World) {
    && (forall t, id :: id in Created(w, t) ==> id in Created(v, t))
    && (forall t <- v.store.entries ::
          || (t in w.store.entries && v.store.entries[t].id == w.store.entries[t].id)
          || v.store.entries[t].id in Created(v, t))
    && (forall c :: 0 <= c < |v.calls| && CallId(v.calls[c]).Some? && v.calls[c].token != "" ==>
          || (c < |w.calls| && v.calls[c].token == w.calls[c].token && CallId(v.calls[c]) == CallId(w.calls[c]))
          || CallId(v.calls[c]).value in Created(v, v.calls[c].token))
  }

  lemma FollowingKeepsIds(w: World, v: World)
    requires IdsOk(w) && IdsFollow(w, v)
    ensures IdsOk(v)
  {
  }

  lemma LookupKeepsIds(w: World, c: nat)
    requires IdsOk(w) && Enabled(w, Lookup(c))
    ensures IdsFollow(w, LookupStep(w, c))
  {
    var v := LookupStep(w, c);
    forall t ensures Created(v, t) == Created(w, t) {}
  }

  lemma CreateKeepsIds(w: World, c: nat, id: string)
    requires IdsOk(w) && Enabled(w, CreateDone(c, id))
    ensures IdsFollow(w, CreateStep(w, c, id))
  {
    var v := CreateStep(w, c, id);
    assert Created(v, w.calls[c].token)[|Created(w, w.calls[c].token)|] == id;
    forall t, i | i in Created(w, t) ensures i in Created(v, t) {
      var k :| 0 <= k < |Created(w, t)| && Created(w, t)[k] == i;
      assert Created(v, t)[k] == i;
    }
  }

  lemma PutKeepsIds(w: World, c: nat)
    requires IdsOk(w) && TokensOk(w) && Enabled(w, Put(c))
    ensures IdsFollow(w, PutStep(w, c))
  {
    var v := PutStep(w, c);
    forall t ensures Created(v, t) == Created(w, t) {}
    assert CallId(w.calls[c]) == Some(w.calls[c].phase.id);
  }

  lemma ForgetKeepsIds(w: World, id: string)
    requires IdsOk(w)
    ensures IdsFollow(w, ForgetStep(w, id))
  {
    var v := ForgetStep(w, id);
    forall t ensures Created(v, t) == Created(w, t) {}
  }

  // ---- Creations

  /** Calls of the token create and record as before, and a record it no longer has was counted lost. */
  ghost predicate QuietFor(w: World, v: World, t: string) {
    && Created(v, t) == Created(w, t)
    && Losses(v, t) >= Losses(w, t) + (if t in w.store.entries && t !in v.store.entries then 1 else 0)
    && |w.calls| <= |v.calls|
    && (forall c :: 0 <= c < |w.calls| && w.calls[c].token == t ==> v.calls[c].token == t)
    && (forall c :: 0 <= c < |v.calls| && v.calls[c].token == t ==>
          && (v.calls[c].phase.Creating? <==> c < |w.calls| && w.calls[c].token == t && w.calls[c].phase.Creating?)
          && (v.calls[c].phase.Recording? <==> c < |w.calls| && w.calls[c].token == t && w.calls[c].phase.Recording?))
  }

  lemma QuietStaysPaid(w: World, v: World, t: string)
    requires Paid(w, t) && QuietFor(w, v, t)
    ensures Paid(v, t)
  {
    assert CreatingNow(v, t) == CreatingNow(w, t);
    assert RecordingNow(v, t) == RecordingNow(w, t);
  }

  /** While a call holds its token's lock, it alone decides what is standing. */
  lemma HolderDecides(w: World, c: nat)
    requires LocksOk(w) && HoldersOk(w) && c < |w.calls| && Holds(w.calls[c])
    ensures CreatingNow(w, w.calls[c].token) == w.calls[c].phase.Creating?
    ensures RecordingNow(w, w.calls[c].token) == w.calls[c].phase.Recording?
  {
    forall d | 0 <= d < |w.calls| && w.calls[d].token == w.calls[c].token && Holds(w.calls[d]) ensures d == c {
      MutualExclusion(w, c, d);
    }
  }

  lemma LookupPays(w: World, c: nat, t: string)
    requires Inv(w) && Enabled(w, Lookup(c)) && HoldersOk(LookupStep(w, c)) && LocksOk(LookupStep(w, c))
    ensures Paid(LookupStep(w, c), t)
  {
    hide LocksOk, HoldersOk, IdsOk, TokensOk, LocksExist;
    var v := LookupStep(w, c);
    if t == w.calls[c].token {
      HolderDecides(w, c);
      HolderDecides(v, c);
      assert Paid(w, t);
    } else {
      assert QuietFor(w, v, t);
      QuietStaysPaid(w, v, t);
    }
  }

  lemma CreatePays(w: World, c: nat, id: string, t: string)
    requires Inv(w) && Enabled(w, CreateDone(c, id)) && HoldersOk(CreateStep(w, c, id)) && LocksOk(CreateStep(w, c, id))
    ensures Paid(CreateStep(w, c, id), t)
  {
    hide LocksOk, HoldersOk, IdsOk, TokensOk, LocksExist;
    var v := CreateStep(w, c, id);
    if t == w.calls[c].token {
      HolderDecides(w, c);
      HolderDecides(v, c);
      assert Paid(w, t);
    } else {
      assert QuietFor(w, v, t);
      QuietStaysPaid(w, v, t);
    }
  }

  lemma PutPays(w: World, c: nat, t: string)
    requires Inv(w) && Enabled(w, Put(c)) && HoldersOk(PutStep(w, c)) && LocksOk(PutStep(w, c))
    ensures Paid(PutStep(w, c), t)
  {
    hide LocksOk, HoldersOk, IdsOk, TokensOk, LocksExist;
    var v := PutStep(w, c);
    if t == w.calls[c].token {
      HolderDecides(w, c);
      HolderDecides(v, c);
      assert Paid(w, t);
    } else {
      assert QuietFor(w, v, t);
      QuietStaysPaid(w, v, t);
    }
  }

  lemma ForgetPays(w: World, id: string, t: string)
    requires Inv(w)
    ensures Paid(ForgetStep(w, id), t)
  {
    hide LocksOk, HoldersOk, IdsOk, TokensOk, LocksExist;
    var v := ForgetStep(w, id);
    assert QuietFor(w, v, t);
    QuietStaysPaid(w, v, t);
  }

  /** A holder that gives up creating leaves whatever record was there. */
  lemma GiveUpPays(w: World, c: nat, p: Phase, t: string)
    requires Inv(w) && c < |w.calls| && (w.calls[c].phase.Creating? || w.calls[c].phase.Replaying?) && p.Unlocking?
    requires HoldersOk(Move(w, c, p)) && LocksOk(Move(w, c, p))
    ensures Paid(Move(w, c, p), t)
  {
    hide LocksOk, HoldersOk, IdsOk, TokensOk, LocksExist;
    var v := Move(w, c, p);
    if t == w.calls[c].token {
      HolderDecides(w, c);
      HolderDecides(v, c);
      assert Paid(w, t);
    } else {
      assert QuietFor(w, v, t);
      QuietStaysPaid(w, v, t);
    }
  }

  lemma GonePays(w: World, c: nat, t: string)
    requires Inv(w) && Enabled(w, ReplayGone(c))
    requires HoldersOk(GoneStep(w, c)) && LocksOk(GoneStep(w, c))
    ensures Paid(GoneStep(w, c), t)
  {
    hide LocksOk, HoldersOk, IdsOk, TokensOk, LocksExist;
    var v := GoneStep(w, c);
    if t == w.calls[c].token {
      HolderDecides(w, c);
      HolderDecides(v, c);
      assert Paid(w, t);
    } else {
      assert QuietFor(w, v, t);
      QuietStaysPaid(w, v, t);
    }
  }

  // ---- Every step

  /** Moves that change neither the store nor a history. */
  predicate PlainMove(k: Call, p: Phase) {
    || (k.phase.Arrived? && k.token == "" && p.Finished?)
    || (k.phase.Replaying? && p == Unlocking(k.phase.lock, Replayed(k.phase.id)))
    || ((k.phase.Replaying? || k.phase.Creating?) && p == Unlocking(k.phase.lock, Error))
  }

  lemma MoveKeepsIds(w: World, c: nat, p: Phase)
    requires IdsOk(w) && c < |w.calls| && PlainMove(w.calls[c], p)
    ensures IdsFollow(w, Move(w, c, p))
  {
    var v := Move(w, c, p);
    forall t ensures Created(v, t) == Created(w, t) {}
    assert CallId(w.calls[c]) == CallId(v.calls[c]) || CallId(v.calls[c]) == None || w.calls[c].token == "";
  }

  /** Nothing is created, recorded or lost, and no call gains an id. */
  ghost predicate PlainIds(w: World, v: World) {
    && v.store.entries == w.store.entries && v.created == w.created
    && forall c :: 0 <= c < |v.calls| && CallId(v.calls[c]).Some? ==>
         c < |w.calls| && v.calls[c].token == w.calls[c].token && CallId(v.calls[c]) == CallId(w.calls[c])
  }

  lemma PlainKeepsIds(w: World, v: World)
    requires IdsOk(w) && PlainIds(w, v)
    ensures IdsFollow(w, v)
  {
    forall t ensures Created(v, t) == Created(w, t) {}
  }

  lemma GoneKeepsIds(w: World, c: nat)
    requires IdsOk(w) && Enabled(w, ReplayGone(c))
    ensures IdsFollow(w, GoneStep(w, c))
  {
    var v := GoneStep(w, c);
    forall t ensures Created(v, t) == Created(w, t) {}
  }

  ghost predicate Quiet(w: World, v: World) { forall t :: QuietFor(w, v, t) }

  lemma QuietPays(w: World, v: World)
    requires CreationsOk(w) && Quiet(w, v)
    ensures CreationsOk(v)
  {
    hide QuietFor, Paid;
    forall t ensures Paid(v, t) {
      assert Paid(w, t) && QuietFor(w, v, t);
      QuietStaysPaid(w, v, t);
    }
  }

  lemma CreationsAre(v: World)
    requires forall t :: Paid(v, t)
    ensures CreationsOk(v)
  {
  }

  lemma MoveFrame(w: World, c: nat, p: Phase)
    requires TokensOk(w) && c < |w.calls| && PlainMove(w.calls[c], p)
    ensures SameUse(w, Move(w, c, p))
    ensures SameHolds(w, Move(w, c, p))
    ensures TokensOk(Move(w, c, p))
    ensures w.calls[c].phase.Arrived? ==> Quiet(w, Move(w, c, p))
  {
  }

  lemma MoveOk(w: World, c: nat, p: Phase)
    requires Inv(w) && c < |w.calls| && PlainMove(w.calls[c], p)
    ensures Inv(Move(w, c, p))
  {
    MoveFrame(w, c, p);
    var v := Move(w, c, p);
    hide LocksOk, HoldersOk, IdsOk, CreationsOk, SameUse, SameHolds, IdsFollow, PlainIds, Quiet, TokensOk, Move;
    SameUseKeepsLocks(w, v);
    SameHoldsKeepsHolders(w, v);
    MoveKeepsIds(w, c, p);
    FollowingKeepsIds(w, v);
    if w.calls[c].phase.Arrived? {
      QuietPays(w, v);
    } else {
      forall t ensures Paid(v, t) { GiveUpPays(w, c, p, t); }
      CreationsAre(v);
    }
  }

  lemma BeginFrame(w: World, token: string, now: int)
    requires TokensOk(w)
    ensures SameHolds(w, BeginStep(w, token, now))
    ensures TokensOk(BeginStep(w, token, now))
    ensures PlainIds(w, BeginStep(w, token, now))
    ensures Quiet(w, BeginStep(w, token, now))
  {
  }

  lemma BeginOk(w: World, token: string, now: int)
    requires Inv(w)
    ensures Inv(BeginStep(w, token, now))
  {
    BeginFrame(w, token, now);
    var v := BeginStep(w, token, now);
    hide LocksOk, HoldersOk, IdsOk, CreationsOk, SameUse, SameHolds, IdsFollow, PlainIds, Quiet, TokensOk, BeginStep;
    BeginKeepsLocks(w, token, now);
    SameHoldsKeepsHolders(w, v);
    PlainKeepsIds(w, v);
    FollowingKeepsIds(w, v);
    QuietPays(w, v);
  }

  lemma EnterFrame(w: World, c: nat)
    requires TokensOk(w) && LocksExist(w) && Enabled(w, Enter(c))
    ensures SameHolds(w, EnterStep(w, c))
    ensures TokensOk(EnterStep(w, c))
    ensures PlainIds(w, EnterStep(w, c))
    ensures Quiet(w, EnterStep(w, c))
  {
  }

  lemma EnterOk(w: World, c: nat)
    requires Inv(w) && Enabled(w, Enter(c))
    ensures Inv(EnterStep(w, c))
  {
    EnterFrame(w, c);
    var v := EnterStep(w, c);
    hide LocksOk, HoldersOk, IdsOk, CreationsOk, SameUse, SameHolds, IdsFollow, PlainIds, Quiet, TokensOk, EnterStep;
    EnterKeepsLocks(w, c);
    SameHoldsKeepsHolders(w, v);
    PlainKeepsIds(w, v);
    FollowingKeepsIds(w, v);
    QuietPays(w, v);
  }

  lemma AcquireFrame(w: World, c: nat)
    requires TokensOk(w) && Enabled(w, Acquire(c))
    ensures SameUse(w, AcquireStep(w, c))
    ensures TokensOk(AcquireStep(w, c))
    ensures PlainIds(w, AcquireStep(w, c))
    ensures Quiet(w, AcquireStep(w, c))
  {
  }

  lemma AcquireOk(w: World, c: nat)
    requires Inv(w) && Enabled(w, Acquire(c))
    ensures Inv(AcquireStep(w, c))
  {
    AcquireFrame(w, c);
    var v := AcquireStep(w, c);
    hide LocksOk, HoldersOk, IdsOk, CreationsOk, SameUse, SameHolds, IdsFollow, PlainIds, Quiet, TokensOk, AcquireStep;
    SameUseKeepsLocks(w, v);
    AcquireKeepsHolders(w, c);
    PlainKeepsIds(w, v);
    FollowingKeepsIds(w, v);
    QuietPays(w, v);
  }

  lemma LookupFrame(w: World, c: nat)
    requires TokensOk(w) && Enabled(w, Lookup(c))
    ensures SameUse(w, LookupStep(w, c))
    ensures SameHolds(w, LookupStep(w, c))
    ensures TokensOk(LookupStep(w, c))
  {
  }

  lemma LookupOk(w: World, c: nat)
    requires Inv(w) && Enabled(w, Lookup(c))
    ensures Inv(LookupStep(w, c))
  {
    LookupFrame(w, c);
    var v := LookupStep(w, c);
    hide LocksOk, HoldersOk, IdsOk, CreationsOk, SameUse, SameHolds, IdsFollow, PlainIds, Quiet, TokensOk, LookupStep;
    SameUseKeepsLocks(w, v);
    SameHoldsKeepsHolders(w, v);
    LookupKeepsIds(w, c);
    FollowingKeepsIds(w, v);
    forall t ensures Paid(v, t) { LookupPays(w, c, t); }
    CreationsAre(v);
  }

  lemma GoneFrame(w: World, c: nat)
    requires TokensOk(w) && Enabled(w, ReplayGone(c))
    ensures SameUse(w, GoneStep(w, c))
    ensures SameHolds(w, GoneStep(w, c))
    ensures TokensOk(GoneStep(w, c))
  {
  }

  lemma GoneOk(w: World, c: nat)
    requires Inv(w) && Enabled(w, ReplayGone(c))
    ensures Inv(GoneStep(w, c))
  {
    GoneFrame(w, c);
    var v := GoneStep(w, c);
    hide LocksOk, HoldersOk, IdsOk, CreationsOk, SameUse, SameHolds, IdsFollow, PlainIds, Quiet, TokensOk, GoneStep;
    SameUseKeepsLocks(w, v);
    SameHoldsKeepsHolders(w, v);
    GoneKeepsIds(w, c);
    FollowingKeepsIds(w, v);
    forall t ensures Paid(v, t) { GonePays(w, c, t); }
    CreationsAre(v);
  }

  lemma CreateFrame(w: World, c: nat, id: string)
    requires TokensOk(w) && Enabled(w, CreateDone(c, id))
    ensures SameUse(w, CreateStep(w, c, id))
    ensures SameHolds(w, CreateStep(w, c, id))
    ensures TokensOk(CreateStep(w, c, id))
  {
  }

  lemma CreateOk(w: World, c: nat, id: string)
    requires Inv(w) && Enabled(w, CreateDone(c, id))
    ensures Inv(CreateStep(w, c, id))
  {
    CreateFrame(w, c, id);
    var v := CreateStep(w, c, id);
    hide LocksOk, HoldersOk, IdsOk, CreationsOk, SameUse, SameHolds, IdsFollow, PlainIds, Quiet, TokensOk, CreateStep;
    SameUseKeepsLocks(w, v);
    SameHoldsKeepsHolders(w, v);
    CreateKeepsIds(w, c, id);
    FollowingKeepsIds(w, v);
    forall t ensures Paid(v, t) { CreatePays(w, c, id, t); }
    CreationsAre(v);
  }

  lemma PutFrame(w: World, c: nat)
    requires TokensOk(w) && Enabled(w, Put(c))
    ensures SameUse(w, PutStep(w, c))
    ensures SameHolds(w, PutStep(w, c))
    ensures TokensOk(PutStep(w, c))
  {
  }

  lemma PutOk(w: World, c: nat)
    requires Inv(w) && Enabled(w, Put(c))
    ensures Inv(PutStep(w, c))
  {
    PutFrame(w, c);
    var v := PutStep(w, c);
    hide LocksOk, HoldersOk, IdsOk, CreationsOk, SameUse, SameHolds, IdsFollow, PlainIds, Quiet, TokensOk, PutStep;
    SameUseKeepsLocks(w, v);
    SameHoldsKeepsHolders(w, v);
    PutKeepsIds(w, c);
    FollowingKeepsIds(w, v);
    forall t ensures Paid(v, t) { PutPays(w, c, t); }
    CreationsAre(v);
  }

  lemma UnlockFrame(w: World, c: nat)
    requires TokensOk(w) && Enabled(w, Unlock(c))
    ensures SameUse(w, UnlockStep(w, c))
    ensures TokensOk(UnlockStep(w, c))
    ensures PlainIds(w, UnlockStep(w, c))
    ensures Quiet(w, UnlockStep(w, c))
  {
  }

  lemma UnlockOk(w: World, c: nat)
    requires Inv(w) && Enabled(w, Unlock(c))
    ensures Inv(UnlockStep(w, c))
  {
    UnlockFrame(w, c);
    var v := UnlockStep(w, c);
    hide LocksOk, HoldersOk, IdsOk, CreationsOk, SameUse, SameHolds, IdsFollow, PlainIds, Quiet, TokensOk, UnlockStep;
    SameUseKeepsLocks(w, v);
    UnlockKeepsHolders(w, c);
    PlainKeepsIds(w, v);
    FollowingKeepsIds(w, v);
    QuietPays(w, v);
  }

  lemma LeaveFrame(w: World, c: nat)
    requires TokensOk(w) && LocksExist(w) && Enabled(w, Leave(c))
    ensures SameHolds(w, LeaveStep(w, c))
    ensures TokensOk(LeaveStep(w, c))
    ensures PlainIds(w, LeaveStep(w, c))
    ensures Quiet(w, LeaveStep(w, c))
  {
  }

  lemma LeaveOk(w: World, c: nat)
    requires Inv(w) && Enabled(w, Leave(c))
    ensures Inv(LeaveStep(w, c))
  {
    LeaveFrame(w, c);
    var v := LeaveStep(w, c);
    hide LocksOk, HoldersOk, IdsOk, CreationsOk, SameUse, SameHolds, IdsFollow, PlainIds, Quiet, TokensOk, LeaveStep;
    LeaveKeepsLocks(w, c);
    SameHoldsKeepsHolders(w, v);
    PlainKeepsIds(w, v);
    FollowingKeepsIds(w, v);
    QuietPays(w, v);
  }

  lemma ForgetFrame(w: World, id: string)
    requires TokensOk(w)
    ensures SameUse(w, ForgetStep(w, id))
    ensures SameHolds(w, ForgetStep(w, id))
    ensures TokensOk(ForgetStep(w, id))
  {
  }

  lemma ForgetOk(w: World, id: string)
    requires Inv(w)
    ensures Inv(ForgetStep(w, id))
  {
    ForgetFrame(w, id);
    var v := ForgetStep(w, id);
    hide LocksOk, HoldersOk, IdsOk, CreationsOk, SameUse, SameHolds, IdsFollow, PlainIds, Quiet, TokensOk, ForgetStep;
    SameUseKeepsLocks(w, v);
    SameHoldsKeepsHolders(w, v);
    ForgetKeepsIds(w, id);
    FollowingKeepsIds(w, v);
    forall t ensures Paid(v, t) { ForgetPays(w, id, t); }
    CreationsAre(v);
  }

  lemma PlainStepOk(w: World, step: Step)
    requires step.Direct? || step.ReplayDone? || step.ReplayFailed? || step.CreateFailed?
    requires Inv(w) && LocksExist(w) && Enabled(w, step)
    ensures Inv(Apply(w, step))
  {
    hide Inv, LocksExist, BeginStep, EnterStep, AcquireStep, LookupStep, GoneStep, CreateStep, PutStep, UnlockStep,
         LeaveStep, ForgetStep, Move;
    var p := w.calls[step.c].phase;
    if step.Direct? {
      MoveOk(w, step.c, Finished(step.outcome));
    } else if step.ReplayDone? {
      MoveOk(w, step.c, Unlocking(p.lock, Replayed(p.id)));
    } else {
      MoveOk(w, step.c, Unlocking(p.lock, Error));
    }
  }

  lemma LockStepOk(w: World, step: Step)
    requires step.Enter? || step.Acquire? || step.Unlock? || step.Leave?
    requires Inv(w) && LocksExist(w) && Enabled(w, step)
    ensures Inv(Apply(w, step))
  {
    hide Inv, LocksExist, BeginStep, EnterStep, AcquireStep, LookupStep, GoneStep, CreateStep, PutStep, UnlockStep,
         LeaveStep, ForgetStep, Move;
    if step.Enter? {
      EnterOk(w, step.c);
    } else if step.Acquire? {
      AcquireOk(w, step.c);
    } else if step.Unlock? {
      UnlockOk(w, step.c);
    } else {
      LeaveOk(w, step.c);
    }
  }

  lemma HolderStepOk(w: World, step: Step)
    requires step.Lookup? || step.ReplayGone? || step.CreateDone? || step.Put?
    requires Inv(w) && LocksExist(w) && Enabled(w, step)
    ensures Inv(Apply(w, step))
  {
    hide Inv, LocksExist, BeginStep, EnterStep, AcquireStep, LookupStep, GoneStep, CreateStep, PutStep, UnlockStep,
         LeaveStep, ForgetStep, Move;
    if step.Lookup? {
      LookupOk(w, step.c);
    } else if step.ReplayGone? {
      GoneOk(w, step.c);
    } else if step.CreateDone? {
      CreateOk(w, step.c, step.id);
    } else {
      PutOk(w, step.c);
    }
  }

  /** Every step of every call keeps the invariant. */
  lemma StepKeepsInvariant(w: World, step: Step)
    requires Inv(w) && Enabled(w, step)
    ensures Inv(Apply(w, step))
  {
    assert LocksExist(w);
    hide Inv, Enabled, LocksExist, BeginStep, EnterStep, AcquireStep, LookupStep, GoneStep, CreateStep, PutStep,
         UnlockStep, LeaveStep, ForgetStep, Move;
    if step.Begin? {
      BeginOk(w, step.token, step.now);
    } else if step.Forget? {
      ForgetOk(w, step.id);
    } else if step.Enter? || step.Acquire? || step.Unlock? || step.Leave? {
      LockStepOk(w, step);
    } else if step.Lookup? || step.ReplayGone? || step.CreateDone? || step.Put? {
      HolderStepOk(w, step);
    } else {
      PlainStepOk(w, step);
    }
  }

  // ---- Who created

  /** The call's create succeeded. */
  predicate Mints(k: Call) {
    match k.phase
    case Recording(_, _) => true
    case Unlocking(_, o) => o.Minted?
    case Leaving(_, o) => o.Minted?
    case Finished(o) => o.Minted?
    case _ => false
  }

  function Minters(w: World, token: string): set<nat> {
    set c | 0 <= c < |w.calls| && w.calls[c].token == token && Mints(w.calls[c])
  }

  /** Each creation under a token is one call's. */
  ghost predicate CountOk(w: World) {
    forall t :: t != "" ==> |Minters(w, t)| == |Created(w, t)|
  }

  lemma StepMintsCall(w: World, step: Step, c: nat)
    requires LocksExist(w) && Enabled(w, step)
    requires c < |Apply(w, step).calls|
    ensures c >= |w.calls| ==> !Mints(Apply(w, step).calls[c])
    ensures c < |w.calls| ==> Apply(w, step).calls[c].token == w.calls[c].token
    ensures c < |w.calls| && w.calls[c].token != "" ==>
      (Mints(Apply(w, step).calls[c]) <==> Mints(w.calls[c]) || (step.CreateDone? && step.c == c))
  {
    hide LocksExist, EnterLock, LeaveLock, LookupEntry, RecordEntry, ForgetEntries, Dropped;
  }

  lemma StepMints(w: World, step: Step, t: string)
    requires LocksExist(w) && Enabled(w, step) && t != ""
    ensures Minters(Apply(w, step), t) ==
      Minters(w, t) + if step.CreateDone? && w.calls[step.c].token == t then {step.c} else {}
  {
    var v := Apply(w, step);
    assert |w.calls| <= |v.calls|;
    hide LocksExist, Apply, Mints;
    forall c | 0 <= c < |v.calls|
      ensures c in Minters(v, t) <==> c in Minters(w, t) || (step.CreateDone? && step.c == c && w.calls[c].token == t)
    {
      StepMintsCall(w, step, c);
    }
  }

  lemma StepCreates(w: World, step: Step, t: string)
    requires LocksExist(w) && Enabled(w, step)
    ensures Created(Apply(w, step), t) ==
      Created(w, t) + if step.CreateDone? && w.calls[step.c].token == t then [step.id] else []
  {
    hide LocksExist;
  }

  lemma StepKeepsCount(w: World, step: Step)
    requires LocksExist(w) && CountOk(w) && Enabled(w, step)
    ensures CountOk(Apply(w, step))
  {
    hide Apply, LocksExist, Created;
    forall t | t != "" ensures |Minters(Apply(w, step), t)| == |Created(Apply(w, step), t)| {
      StepMints(w, step, t);
      StepCreates(w, step, t);
      if step.CreateDone? { assert step.c !in Minters(w, t); }
    }
  }

  // ---- Keeping a record

  /** Every clock reading lies in one ttl from lo, and so no entry has expired for any of them. */
  ghost predicate OnTime(w: World, lo: int) {
    && w.store.ttl > 0
    && (forall c :: 0 <= c < |w.calls| ==> lo <= w.calls[c].now <= lo + w.store.ttl)
    && (forall t <- w.store.entries :: w.store.entries[t].expireAt >= lo + w.store.ttl)
  }

  /** The step neither forgets the token's resource nor finds it gone, and its clock is on time. */
  ghost predicate Keeps(w: World, step: Step, token: string, lo: int)
    requires Enabled(w, step)
  {
    match step
    case Begin(_, now) => lo <= now <= lo + w.store.ttl
    case Forget(id) => id !in Created(w, token)
    case ReplayGone(c) => w.calls[c].token != token
    case _ => true
  }

  lemma LookupKeepsRecord(w: World, c: nat, t: string, lo: int)
    requires Enabled(w, Lookup(c)) && OnTime(w, lo)
    ensures OnTime(LookupStep(w, c), lo) && Losses(LookupStep(w, c), t) == Losses(w, t)
  {
    assert Dropped(w.store, LookupEntry(w.store, w.calls[c].token, w.calls[c].now).0) == {};
  }

  lemma PutKeepsRecord(w: World, c: nat, t: string, lo: int)
    requires Enabled(w, Put(c)) && OnTime(w, lo)
    ensures OnTime(PutStep(w, c), lo) && Losses(PutStep(w, c), t) == Losses(w, t)
  {
    assert Dropped(w.store, RecordEntry(w.store, w.calls[c].token, w.calls[c].now, w.calls[c].phase.id)) == {};
  }

  lemma ForgetKeepsRecord(w: World, id: string, t: string, lo: int)
    requires IdsOk(w) && OnTime(w, lo) && id !in Created(w, t)
    ensures OnTime(ForgetStep(w, id), lo) && Losses(ForgetStep(w, id), t) == Losses(w, t)
  {
  }

  lemma HolderStepKeepsRecord(w: World, step: Step, t: string, lo: int)
    requires step.Lookup? || step.ReplayGone? || step.CreateDone? || step.Put? || step.Forget?
    requires IdsOk(w) && LocksExist(w) && Enabled(w, step) && OnTime(w, lo) && Keeps(w, step, t, lo)
    ensures OnTime(Apply(w, step), lo) && Losses(Apply(w, step), t) == Losses(w, t)
  {
    hide LocksExist, IdsOk, EnterStep, LeaveStep, LookupStep, PutStep, ForgetStep, Created;
    if step.Lookup? {
      LookupKeepsRecord(w, step.c, t, lo);
    } else if step.Put? {
      PutKeepsRecord(w, step.c, t, lo);
    } else if step.Forget? {
      ForgetKeepsRecord(w, step.id, t, lo);
    }
  }

  lemma StepKeepsRecord(w: World, step: Step, t: string, lo: int)
    requires IdsOk(w) && LocksExist(w) && Enabled(w, step) && OnTime(w, lo) && Keeps(w, step, t, lo)
    ensures OnTime(Apply(w, step), lo) && Losses(Apply(w, step), t) == Losses(w, t)
  {
    if step.Lookup? || step.ReplayGone? || step.CreateDone? || step.Put? || step.Forget? {
      HolderStepKeepsRecord(w, step, t, lo);
    } else {
      hide IdsOk, LocksExist, LookupStep, GoneStep, CreateStep, PutStep, ForgetStep;
    }
  }

  // ---- Runs

  /** The steps can be taken one after the other from an empty store. */
  ghost predicate Possible(ttl: int, steps: seq<Step>)
    decreases |steps|, 0
  {
    var n := |steps|;
    n > 0 ==> Possible(ttl, steps[..n - 1]) && Enabled(After(ttl, steps[..n - 1]), steps[n - 1])
  }

  /** Where the steps lead, through states that all keep the invariant. */
  ghost function After(ttl: int, steps: seq<Step>): (w: World)
    requires Possible(ttl, steps)
    ensures Inv(w) && CountOk(w)
    decreases |steps|, 1
  {
    var n := |steps|;
    if n == 0 then
      EmptyOk(ttl);
      Empty(ttl)
    else
      var w := After(ttl, steps[..n - 1]);
      StepKeepsInvariant(w, steps[n - 1]);
      StepKeepsCount(w, steps[n - 1]);
      Apply(w, steps[n - 1])
  }

  /**
   In every interleaving, callers sharing a token contend on one lock object: it is in the table
   exactly while some are inside, it counts them, and at most one is past Acquire.
   */
  lemma OneLockPerToken(ttl: int, steps: seq<Step>, token: string)
    requires Possible(ttl, steps)
    ensures var w := After(ttl, steps);
      && (token in w.store.locks <==> Users(w, token) != {})
      && (forall c <- Users(w, token) ::
            w.calls[c].phase.lock == w.store.locks[token] && w.store.refs[w.calls[c].phase.lock] == |Users(w, token)|)
      && (forall c <- Users(w, token), d <- Users(w, token) :: Holds(w.calls[c]) && Holds(w.calls[d]) ==> c == d)
  {
    var w := After(ttl, steps);
    if token !in w.store.locks { NoUsers(w, token); }
    forall c <- Users(w, token), d <- Users(w, token) | Holds(w.calls[c]) && Holds(w.calls[d]) ensures c == d {
      MutualExclusion(w, c, d);
    }
  }

  /**
   In every interleaving, a token creates at most once more than its record was lost. Without a loss
   it creates at most once, at most one caller is told it did, and every id returned is that one.
   */
  lemma CreatesOnce(ttl: int, steps: seq<Step>, token: string)
    requires Possible(ttl, steps) && token != ""
    ensures var w := After(ttl, steps);
      && |Created(w, token)| <= Losses(w, token) + 1
      && |Minters(w, token)| == |Created(w, token)|
      && (Losses(w, token) == 0 ==>
            forall c :: 0 <= c < |w.calls| && w.calls[c].token == token && CallId(w.calls[c]).Some? ==>
              Created(w, token) == [CallId(w.calls[c]).value])
  {
    hide After, Possible, Minters, Standing, LocksOk, HoldersOk, IdsOk, TokensOk;
    var w := After(ttl, steps);
    assert Paid(w, token);
    forall c | 0 <= c < |w.calls| && w.calls[c].token == token && CallId(w.calls[c]).Some? && Losses(w, token) == 0
      ensures Created(w, token) == [CallId(w.calls[c]).value]
    {
      OneIdPerToken(w, c);
    }
  }

  lemma OneIdPerToken(w: World, c: nat)
    requires IdsOk(w) && c < |w.calls| && w.calls[c].token != "" && CallId(w.calls[c]).Some?
    requires |Created(w, w.calls[c].token)| <= 1
    ensures Created(w, w.calls[c].token) == [CallId(w.calls[c]).value]
  {
    assert CallId(w.calls[c]).value in Created(w, w.calls[c].token);
  }

  /** No step of the run disturbs the token's record. */
  ghost predicate Undisturbed(ttl: int, steps: seq<Step>, token: string, lo: int)
    requires Possible(ttl, steps)
  {
    var n := |steps|;
    n > 0 ==>
      && Undisturbed(ttl, steps[..n - 1], token, lo)
      && Keeps(After(ttl, steps[..n - 1]), steps[n - 1], token, lo)
  }

  /**
   With a positive ttl, clocks within one ttl of each other, no Forget of the token's resource and no
   replay that finds it gone, the record is never lost, and so CreatesOnce gives a single creation.
   */
  lemma {:induction false} RecordStays(ttl: int, steps: seq<Step>, token: string, lo: int)
    requires Possible(ttl, steps) && ttl > 0 && Undisturbed(ttl, steps, token, lo)
    ensures OnTime(After(ttl, steps), lo) && Losses(After(ttl, steps), token) == 0
  {
    var n := |steps|;
    if n > 0 {
      var w := After(ttl, steps[..n - 1]);
      RecordStays(ttl, steps[..n - 1], token, lo);
      assert Inv(w) && LocksExist(w);
      hide LocksExist, LocksOk, HoldersOk, CreationsOk, TokensOk, CountOk, OnTime, Apply, Losses;
      StepKeepsRecord(w, steps[n - 1], token, lo);
    }
  }
}
