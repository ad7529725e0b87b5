/**
 What the store of tokens remembers, and what one call of Do answers that nothing comes between
 (internal/idempotency/idempotency.go:90-233).
 */
module Records {
  import opened Common
  import opened TokenStore
  import opened Creates
  import opened CreateRuns

  // ---- The records

  /** A recorded id is found until its time is over, at the last moment too, and is dropped when looked for later. */
  lemma RecordedIsFound(s: Store, token: string, now: int, id: string, later: int)
    ensures s.ttl > 0 ==>
      var r := RecordEntry(s, token, now, id);
      LookupEntry(r, token, later) ==
      if later <= now + s.ttl then (r, Some(id)) else (r.(entries := r.entries - {token}), None)
    ensures s.ttl <= 0 ==> RecordEntry(s, token, now, id) == s
  {
  }

  /** Recording an id leaves the records of other tokens that are still good, and no others. */
  lemma OthersAreSwept(s: Store, token: string, now: int, id: string, other: string)
    requires s.ttl > 0 && other != token
    ensures var r := RecordEntry(s, token, now, id);
      && (other in r.entries <==> other in s.entries && now <= s.entries[other].expireAt)
      && (other in r.entries ==> r.entries[other] == s.entries[other])
      && r.ttl == s.ttl && r.locks == s.locks && r.refs == s.refs
  {
  }

  /** Looking for a token changes nothing but a record whose time is over. */
  lemma LookupIsQuiet(s: Store, token: string, now: int)
    ensures var (r, id) := LookupEntry(s, token, now);
      if token in s.entries && now <= s.entries[token].expireAt then r == s && id == Some(s.entries[token].id)
      else r == s.(entries := s.entries - {token}) && id == None
  {
    if token !in s.entries { assert s.entries - {token} == s.entries; }
  }

  /** Forgetting an id takes the records of that id and nothing else. */
  lemma ForgottenIsGone(s: Store, id: string, token: string)
    ensures var r := ForgetEntries(s, id);
      && (token in r.entries <==> token in s.entries && s.entries[token].id != id)
      && (token in r.entries ==> r.entries[token] == s.entries[token])
      && r.ttl == s.ttl && r.locks == s.locks && r.refs == s.refs
  {
  }

  // ---- One call

  /** The world after some steps, one after the other. */
  ghost function Run(w: World, steps: seq<Step>): World
    requires Inv(w)
    decreases |steps|
  {
    if steps == [] || !Enabled(w, steps[0]) then w
    else
      StepKeepsInvariant(w, steps[0]);
      assert LocksExist(w) by { hide HoldersOk, IdsOk, CreationsOk, TokensOk; }
      Run(Apply(w, steps[0]), steps[1..])
  }

  lemma {:induction false} OneStep(w: World, steps: seq<Step>)
    requires Inv(w) && steps != [] && Enabled(w, steps[0])
    ensures LocksExist(w) && Inv(Apply(w, steps[0]))
    ensures Run(w, steps) == Run(Apply(w, steps[0]), steps[1..])
  {
    hide LocksOk, HoldersOk, IdsOk, CreationsOk, TokensOk, Apply, Enabled;
    ExistFirst(w);
    StepKeepsInvariant(w, steps[0]);
  }

  lemma ExistFirst(w: World)
    requires Inv(w)
    ensures LocksExist(w)
  {
  }

  /** The call of w stands where it looks for its token, whose record is found. */
  ghost predicate Finds(w: World, c: nat, id: string) {
    && c < |w.calls| && w.calls[c].phase.Holding?
    && w.calls[c].token in w.store.entries && w.store.entries[w.calls[c].token].id == id
    && w.calls[c].now <= w.store.entries[w.calls[c].token].expireAt
  }

  /** What a step of the call does to it, and to the records and what has been created. */
  ghost predicate Effect(w: World, step: Step, v: World, c: nat, phase: Phase) {
    && c < |w.calls| && |v.calls| == |w.calls|
    && v.calls[c] == w.calls[c].(phase := phase)
    && v.store.ttl == w.store.ttl
    && match step
       case CreateDone(_, id) =>
         && v.store.entries == w.store.entries
         && v.created == w.created[w.calls[c].token := Created(w, w.calls[c].token) + [id]]
       case Put(_) =>
         && v.created == w.created
         && w.calls[c].phase.Recording?
         && v.store.entries == RecordEntry(w.store, w.calls[c].token, w.calls[c].now, w.calls[c].phase.id).entries
       case Lookup(_) =>
         && v.created == w.created
         && v.store.entries == LookupEntry(w.store, w.calls[c].token, w.calls[c].now).0.entries
       case _ => v.store.entries == w.store.entries && v.created == w.created
  }

  lemma LookupEffect(w: World, c: nat)
    requires LocksExist(w) && Enabled(w, Lookup(c))
    ensures var id := LookupEntry(w.store, w.calls[c].token, w.calls[c].now).1;
      var l := w.calls[c].phase.lock;
      Effect(w, Lookup(c), Apply(w, Lookup(c)), c, if id.Some? then Replaying(l, id.value) else Creating(l))
  {
  }

  lemma ReplayEffect(w: World, c: nat)
    requires LocksExist(w) && Enabled(w, ReplayDone(c))
    ensures var p := w.calls[c].phase;
      Effect(w, ReplayDone(c), Apply(w, ReplayDone(c)), c, Unlocking(p.lock, Replayed(p.id)))
  {
  }

  lemma CreateEffect(w: World, c: nat, id: string)
    requires LocksExist(w) && Enabled(w, CreateDone(c, id))
    ensures Effect(w, CreateDone(c, id), Apply(w, CreateDone(c, id)), c, Recording(w.calls[c].phase.lock, id))
  {
  }

  lemma PutEffect(w: World, c: nat)
    requires LocksExist(w) && Enabled(w, Put(c))
    ensures var p := w.calls[c].phase;
      Effect(w, Put(c), Apply(w, Put(c)), c, Unlocking(p.lock, Minted(p.id)))
  {
  }

  lemma UnlockEffect(w: World, c: nat)
    requires LocksExist(w) && Enabled(w, Unlock(c))
    ensures var p := w.calls[c].phase; Effect(w, Unlock(c), Apply(w, Unlock(c)), c, Leaving(p.lock, p.outcome))
  {
  }

  lemma LeaveEffect(w: World, c: nat)
    requires LocksExist(w) && Enabled(w, Leave(c))
    ensures Effect(w, Leave(c), Apply(w, Leave(c)), c, Finished(w.calls[c].phase.outcome))
  {
  }

  /** The last two steps of a call. */
  lemma {:induction false} Ends(w: World, c: nat)
    requires Inv(w) && c < |w.calls| && w.calls[c].phase.Unlocking?
    ensures var v := Run(w, [Unlock(c), Leave(c)]);
      && c < |v.calls| && v.calls[c].token == w.calls[c].token
      && v.calls[c].phase == Finished(w.calls[c].phase.outcome)
      && v.store.entries == w.store.entries && v.created == w.created
  {
    hide Inv, Apply, Run, LocksExist;
    OneStep(w, [Unlock(c), Leave(c)]);
    UnlockEffect(w, c);
    var w1 := Apply(w, Unlock(c));
    assert [Unlock(c), Leave(c)][1..] == [Leave(c)] && [Leave(c)][1..] == [];
    OneStep(w1, [Leave(c)]);
    LeaveEffect(w1, c);
    NoStep(Apply(w1, Leave(c)));
  }

  lemma NoStep(w: World)
    requires Inv(w)
    ensures Run(w, []) == w
  {
  }

  /** A call that finds a record, and is not told that the resource is gone, answers with the recorded id. */
  lemma {:induction false} ReplaysTheRecord(w: World, c: nat, id: string)
    requires Inv(w) && Finds(w, c, id)
    ensures var v := Run(w, [Lookup(c), ReplayDone(c), Unlock(c), Leave(c)]);
      && c < |v.calls| && v.calls[c].phase == Finished(Replayed(id))
      && v.store.entries == w.store.entries && v.created == w.created
  {
    hide Inv, Apply, Run, LocksExist;
    var steps := [Lookup(c), ReplayDone(c), Unlock(c), Leave(c)];
    OneStep(w, steps);
    LookupEffect(w, c);
    var w1 := Apply(w, Lookup(c));
    assert steps[1..] == [ReplayDone(c), Unlock(c), Leave(c)];
    assert steps[1..][1..] == [Unlock(c), Leave(c)];
    OneStep(w1, steps[1..]);
    ReplayEffect(w1, c);
    Ends(Apply(w1, ReplayDone(c)), c);
  }

  /** One that finds none creates a resource, and records it. */
  lemma {:induction false} CreatesAndRecords(w: World, c: nat, id: string)
    requires Inv(w) && c < |w.calls| && w.calls[c].phase.Holding?
    requires var t := w.calls[c].token; t in w.store.entries ==> w.calls[c].now > w.store.entries[t].expireAt
    ensures var v := Run(w, [Lookup(c), CreateDone(c, id), Put(c), Unlock(c), Leave(c)]);
      var t := w.calls[c].token;
      && c < |v.calls| && v.calls[c].phase == Finished(Minted(id))
      && Created(v, t) == Created(w, t) + [id]
      && (w.store.ttl > 0 ==> t in v.store.entries && v.store.entries[t] == Entry(id, w.calls[c].now + w.store.ttl))
      && (w.store.ttl <= 0 ==> t !in v.store.entries)
  {
    hide Inv, Apply, Run, LocksExist;
    var steps := [Lookup(c), CreateDone(c, id), Put(c), Unlock(c), Leave(c)];
    OneStep(w, steps);
    LookupEffect(w, c);
    var w1 := Apply(w, Lookup(c));
    assert steps[1..] == [CreateDone(c, id), Put(c), Unlock(c), Leave(c)];
    OneStep(w1, steps[1..]);
    CreateEffect(w1, c, id);
    var w2 := Apply(w1, CreateDone(c, id));
    assert steps[1..][1..] == [Put(c), Unlock(c), Leave(c)];
    OneStep(w2, steps[1..][1..]);
    PutEffect(w2, c);
    assert steps[1..][1..][1..] == [Unlock(c), Leave(c)];
    Ends(Apply(w2, Put(c)), c);
  }
}
