/**
 What event patterns accept (internal/eventmatch/eventmatch.go:34-283), said without an order in which anything is
 looked at.
 */
module EventMeaning {
  import opened Common
  import opened Events
  import Wildcards

  // ---- Operators

  predicate WildcardAccepts(spec: Json, v: Json) {
    match spec
    case Str(pattern) => v.Str? && Wildcards.Matches(pattern, v.s)
    case Arr(list) => exists i :: 0 <= i < |list| && WildcardAccepts(list[i], v)
    case _ => false
  }

  /** All operators of an object hold of a value that is there. */
  predicate AcceptsOperator(ops: Operators, op: Json, v: Json)
    requires op.Obj?
    decreases op, 0
  {
    forall name <- op.fields :: AcceptsNamed(ops, name, op.fields[name], v)
  }

  predicate AcceptsNamed(ops: Operators, name: string, spec: Json, v: Json)
    decreases spec, 1
  {
    if name == "exists" then spec == Bool(true)
    else if name == "anything-but" then
      match spec
      case Arr(list) => v !in list
      case Obj(_) => !AcceptsOperator(ops, spec, v)
      case _ => v != spec
    else if name == "wildcard" then WildcardAccepts(spec, v)
    else ops(name, spec, v)
  }

  lemma {:induction false} WildcardIs(spec: Json, v: Json)
    ensures WildcardHolds(spec, v) <==> WildcardAccepts(spec, v)
    decreases spec
  {
    if spec.Arr? {
      forall i | 0 <= i < |spec.items| ensures WildcardHolds(spec.items[i], v) <==> WildcardAccepts(spec.items[i], v) {
        WildcardIs(spec.items[i], v);
      }
    }
  }

  /** A list is gone through without a comparison of collections when the value is none, or none is in the list. */
  lemma {:induction false} NoneSameExactly(list: seq<Json>, v: Json)
    requires !IsCollection(v) || forall i :: 0 <= i < |list| ==> !IsCollection(list[i])
    ensures NoneSame(list, v) == if v in list then No else Yes
  {
    if list != [] {
      var rest := list[1..];
      forall i | 0 <= i < |rest| ensures rest[i] == list[i + 1] {}
      NoneSameExactly(rest, v);
      assert v in list <==> v == list[0] || v in rest by {
        if v in list { var i :| 0 <= i < |list| && list[i] == v; if i > 0 { assert rest[i - 1] == v; } }
        if v in rest { var i :| 0 <= i < |rest| && rest[i] == v; assert list[i + 1] == v; }
      }
    }
  }

  function Only(name: string, spec: Json): Json { Obj(map[name := spec]) }

  lemma OnlyIsNamed(ops: Operators, name: string, spec: Json, v: Json, a: Answer)
    ensures OperatorMay(ops, Only(name, spec), v, true, a) <==> NamedMay(ops, name, spec, v, true, a)
  {
    var op := Only(name, spec);
    assert op.fields.Keys == {name};
    OneOperator(ops, op, name, v, a);
    hide NamedMay, OperatorMay;
  }

  /**
   anything-but accepts a plain value exactly when it is another than the one ruled out, none of those in a list,
   or one that the operators ruled out may refuse.
   */
  lemma AnythingButExcludes(ops: Operators, x: Json, v: Json)
    requires !IsCollection(v)
    ensures var yes := OperatorMay(ops, Only("anything-but", x), v, true, Yes);
      && (!IsCollection(x) ==> (yes <==> v != x))
      && (x.Arr? ==> (yes <==> v !in x.items))
      && (x.Obj? ==> (yes <==> OperatorMay(ops, x, v, true, No)))
    ensures var no := OperatorMay(ops, Only("anything-but", x), v, true, No);
      && (!IsCollection(x) ==> (no <==> v == x))
      && (x.Arr? ==> (no <==> v in x.items))
      && (x.Obj? ==> (no <==> OperatorMay(ops, x, v, true, Yes)))
  {
    OnlyIsNamed(ops, "anything-but", x, v, Yes);
    OnlyIsNamed(ops, "anything-but", x, v, No);
    if x.Arr? { NoneSameExactly(x.items, v); }
    hide OperatorMay, NoneSame, WildcardHolds;
  }

  /** exists holds of a value that is there exactly when it asks for that, and of an absent one when it does not. */
  lemma ExistsAsks(ops: Operators, spec: Json, v: Json, present: bool, a: Answer)
    ensures OperatorMay(ops, Only("exists", spec), v, present, a) <==>
            a == if (spec == Bool(true)) == present then Yes else No
  {
    var op := Only("exists", spec);
    assert op.fields.Keys == {"exists"} && op.fields["exists"] == spec;
    assert NamedMay(ops, "exists", spec, v, present, a) <==> a == Of((spec == Bool(true)) == present);
    hide NamedMay;
    assert "exists" in op.fields;
  }

  lemma {:induction false} OperatorIs(ops: Operators, op: Json, v: Json)
    requires op.Obj? && TameOperator(op)
    ensures OperatorMay(ops, op, v, true, Yes) <==> AcceptsOperator(ops, op, v)
    decreases op, 0
  {
    forall name <- op.fields
      ensures NamedMay(ops, name, op.fields[name], v, true, Yes) <==> AcceptsNamed(ops, name, op.fields[name], v)
    {
      NamedIs(ops, name, op.fields[name], v);
    }
    hide NamedMay, AcceptsNamed;
  }

  lemma {:induction false} NamedIs(ops: Operators, name: string, spec: Json, v: Json)
    requires name == "anything-but" ==> TameSpec(spec)
    ensures NamedMay(ops, name, spec, v, true, Yes) <==> AcceptsNamed(ops, name, spec, v)
    decreases spec, 1
  {
    hide OperatorMay, AcceptsOperator, NoneSame, WildcardHolds, WildcardAccepts, TameOperator;
    if name == "anything-but" {
      if spec.Arr? {
        NoneSameExactly(spec.items, v);
      } else if spec.Obj? {
        OperatorIs(ops, spec, v);
        OperatorDecided(ops, spec, v, true);
      }
    } else if name == "wildcard" {
      WildcardIs(spec, v);
    }
  }

  // ---- Leaves

  /** A plain entry accepts itself. */
  predicate AcceptsValue(ops: Operators, entry: Json, v: Json) {
    if entry.Obj? then AcceptsOperator(ops, entry, v) else entry == v
  }

  predicate SomeAccepts(ops: Operators, allowed: seq<Json>, v: Json) {
    exists j :: 0 <= j < |allowed| && AcceptsValue(ops, allowed[j], v)
  }

  /** Some entry accepts the value, or an element of it; for an absent one, some entry asks for nothing but that. */
  predicate AcceptsLeaf(ops: Operators, allowed: seq<Json>, v: Json, present: bool) {
    if present then
      SomeAccepts(ops, allowed, v) ||
      (v.Arr? && exists i :: 0 <= i < |v.items| && SomeAccepts(ops, allowed, v.items[i]))
    else
      exists j :: 0 <= j < |allowed| && AsksAbsence(allowed[j])
  }

  predicate AsksAbsence(entry: Json) {
    entry.Obj? && forall name <- entry.fields :: name == "exists" && entry.fields[name] != Bool(true)
  }

  lemma EntryIs(ops: Operators, entry: Json, v: Json)
    requires TameEntry(entry)
    ensures EntryMay(ops, entry, v, true, Yes) <==> AcceptsValue(ops, entry, v)
  {
    if entry.Obj? { OperatorIs(ops, entry, v); }
    hide OperatorMay, AcceptsOperator, TameOperator;
  }

  lemma EntriesAre(ops: Operators, allowed: seq<Json>, v: Json)
    requires TameLeaf(allowed)
    ensures SomeEntryHolds(ops, allowed, v, true) <==> SomeAccepts(ops, allowed, v)
  {
    forall j | 0 <= j < |allowed|
      ensures EntryMay(ops, allowed[j], v, true, Yes) <==> AcceptsValue(ops, allowed[j], v)
    {
      EntryIs(ops, allowed[j], v);
    }
    hide EntryMay, AcceptsValue, TameEntry;
  }

  lemma {:induction false} AbsenceIs(allowed: seq<Json>)
    ensures AsksForAbsence(allowed) <==> exists j :: 0 <= j < |allowed| && AsksAbsence(allowed[j])
  {
    if allowed != [] {
      var rest := allowed[1..];
      forall i | 0 <= i < |rest| ensures rest[i] == allowed[i + 1] {}
      AbsenceIs(rest);
      if j :| 0 <= j < |allowed| && AsksAbsence(allowed[j]) { if j > 0 { assert AsksAbsence(rest[j - 1]); } }
      if j :| 0 <= j < |rest| && AsksAbsence(rest[j]) { assert AsksAbsence(allowed[j + 1]); }
    }
  }

  lemma LeafIs(ops: Operators, allowed: seq<Json>, v: Json, present: bool)
    requires TameLeaf(allowed)
    ensures LeafMay(ops, allowed, v, present, Yes) <==> AcceptsLeaf(ops, allowed, v, present)
  {
    hide EntryMay, SomeEntryHolds, SomeAccepts, TameLeaf, LeafMay, AsksForAbsence, AsksAbsence;
    if present {
      LeafMatchesExactly(ops, allowed, v, true);
      EntriesAre(ops, allowed, v);
      if v.Arr? {
        forall i | 0 <= i < |v.items|
          ensures SomeEntryHolds(ops, allowed, v.items[i], true) <==> SomeAccepts(ops, allowed, v.items[i])
        {
          EntriesAre(ops, allowed, v.items[i]);
        }
      }
    } else {
      AbsentMatchesExactly(ops, allowed, v, Yes);
      AbsenceIs(allowed);
    }
  }

  // ---- Patterns

  /** $or with at least two patterns that have no operator's name as a field. */
  predicate Alternatives(key: string, p: Json) {
    && key == "$or" && p.Arr? && |p.items| >= 2
    && forall i :: 0 <= i < |p.items| ==>
         p.items[i].Obj? &&
         forall k <- p.items[i].fields ::
           k !in {"prefix", "suffix", "anything-but", "exists", "numeric", "cidr", "equals-ignore-case", "wildcard"}
  }

  /** o is the value, or is in it, in arrays of arrays. */
  predicate Holds(value: Json, o: map<string, Json>)
    decreases value
  {
    match value
    case Obj(event) => event == o
    case Arr(items) => exists i :: 0 <= i < |items| && Holds(items[i], o)
    case _ => false
  }

  /** Every field of the pattern accepts what the event has there. */
  ghost predicate Accepts(ops: Operators, pattern: Json, event: map<string, Json>)
    requires pattern.Obj?
    decreases pattern, 0
  {
    forall key <- pattern.fields :: AcceptsKey(ops, key, pattern.fields[key], event)
  }

  ghost predicate AcceptsKey(ops: Operators, key: string, p: Json, event: map<string, Json>)
    decreases p, 2
  {
    if Alternatives(key, p) then exists i :: 0 <= i < |p.items| && Accepts(ops, p.items[i], event)
    else match p
      case Arr(allowed) => AcceptsLeaf(ops, allowed, if key in event then event[key] else Null, key in event)
      case Obj(_) => AcceptsSome(ops, p, if key in event then event[key] else Null)
      case _ => false
  }

  /** The pattern accepts an object that the value is or holds. */
  ghost predicate AcceptsSome(ops: Operators, p: Json, value: Json)
    requires p.Obj?
    decreases p, 1
  {
    exists o: map<string, Json> :: Holds(value, o) && Accepts(ops, p, o)
  }

  lemma {:induction false} HoldsExactly(value: Json, o: map<string, Json>)
    ensures Holds(value, o) <==> o in Objects(value)
    decreases value, 0
  {
    match value
    case Obj(event) => assert o in [event] <==> o == event;
    case Arr(items) => ItemsHold(items, o);
    case _ =>
  }

  lemma {:induction false} ItemsHold(items: seq<Json>, o: map<string, Json>)
    ensures (exists i :: 0 <= i < |items| && Holds(items[i], o)) <==> o in ObjectsOf(items)
    decreases items, 1
  {
    hide Holds, Objects;
    if items != [] {
      var rest := items[1..];
      forall i | 0 <= i < |rest| ensures rest[i] == items[i + 1] {}
      HoldsExactly(items[0], o);
      ItemsHold(rest, o);
      if i :| 0 <= i < |items| && Holds(items[i], o) { if i > 0 { assert Holds(rest[i - 1], o); } }
      if i :| 0 <= i < |rest| && Holds(rest[i], o) { assert Holds(items[i + 1], o); }
    }
  }

  lemma {:induction false} FirstIsSome(ops: Operators, pattern: Json, objects: seq<map<string, Json>>)
    requires pattern.Obj? && Tame(pattern)
    ensures FirstMay(ops, pattern, objects, Yes) <==> exists o <- objects :: EventMay(ops, pattern, o, Yes)
  {
    hide EventMay, Tame;
    if objects != [] {
      FirstIsSome(ops, pattern, objects[1..]);
      TameIsDecided(ops, pattern, objects[0]);
      if o :| o in objects && EventMay(ops, pattern, o, Yes) {
        if o != objects[0] { InRest(objects, o); }
      }
      if o :| o in objects[1..] && EventMay(ops, pattern, o, Yes) { assert o in objects; }
    }
  }

  lemma InRest<T>(s: seq<T>, x: T)
    requires x in s && x != s[0]
    ensures x in s[1..]
  {
    var i :| 0 <= i < |s| && s[i] == x;
    assert s[1..][i - 1] == x;
  }

  lemma {:induction false} OrIsSome(ops: Operators, subs: seq<Json>, event: map<string, Json>)
    requires forall i :: 0 <= i < |subs| ==> subs[i].Obj? && Tame(subs[i])
    ensures OrMay(ops, subs, event, Yes) <==> exists i :: 0 <= i < |subs| && EventMay(ops, subs[i], event, Yes)
  {
    hide EventMay, Tame;
    if OrMay(ops, subs, event, Yes) { SomeAlternative(ops, subs, event); }
    if i :| 0 <= i < |subs| && EventMay(ops, subs[i], event, Yes) { AlternativeDecides(ops, subs, event, i); }
  }

  /**
   A pattern that compares no collections matches an event exactly when it accepts it, whatever the order of
   anything, and says no to any other.
   */
  lemma {:induction false} MatchesExactly(ops: Operators, pattern: Json, event: map<string, Json>)
    requires pattern.Obj? && Tame(pattern)
    ensures EventMay(ops, pattern, event, Yes) <==> Accepts(ops, pattern, event)
    ensures EventMay(ops, pattern, event, No) <==> !Accepts(ops, pattern, event)
    decreases pattern, 0
  {
    forall key <- pattern.fields
      ensures KeyMay(ops, key, pattern.fields[key], event, Yes) <==> AcceptsKey(ops, key, pattern.fields[key], event)
    {
      KeyMatches(ops, key, pattern.fields[key], event);
    }
    TameIsDecided(ops, pattern, event);
    hide KeyMay, AcceptsKey, TameKey;
  }

  lemma {:induction false} KeyMatches(ops: Operators, key: string, p: Json, event: map<string, Json>)
    requires TameKey(key, p)
    ensures KeyMay(ops, key, p, event, Yes) <==> AcceptsKey(ops, key, p, event)
    decreases p, 1
  {
    OrIsAlternatives(key, p);
    var v := FieldOf(event, key);
    assert v == if key in event then event[key] else Null;
    if IsOr(key, p) {
      OrMatches(ops, p, event);
    } else if p.Arr? {
      LeafIs(ops, p.items, v, key in event);
    } else if p.Obj? {
      NestedMatches(ops, p, v);
    }
    hide OrMay, LeafMay, NestedMay, Accepts, AcceptsSome, AcceptsLeaf, IsOr, Alternatives, Tame, TameLeaf;
  }

  lemma OrIsAlternatives(key: string, p: Json)
    ensures IsOr(key, p) <==> Alternatives(key, p)
  {
  }

  lemma {:induction false} OrMatches(ops: Operators, p: Json, event: map<string, Json>)
    requires p.Arr? && forall i :: 0 <= i < |p.items| ==> p.items[i].Obj? && Tame(p.items[i])
    ensures OrMay(ops, p.items, event, Yes) <==> exists i :: 0 <= i < |p.items| && Accepts(ops, p.items[i], event)
    decreases p, 0
  {
    hide EventMay, Accepts, Tame, OrMay;
    OrIsSome(ops, p.items, event);
    forall i | 0 <= i < |p.items|
      ensures EventMay(ops, p.items[i], event, Yes) <==> Accepts(ops, p.items[i], event)
    {
      MatchesExactly(ops, p.items[i], event);
    }
  }

  lemma {:induction false} NestedMatches(ops: Operators, p: Json, value: Json)
    requires p.Obj? && Tame(p)
    ensures NestedMay(ops, p, value, Yes) <==> AcceptsSome(ops, p, value)
    decreases p, 1, 0
  {
    hide EventMay, Accepts, Tame, NestedMay, FirstMay, Holds, Objects;
    NestedIsFirstObject(ops, p, value, Yes);
    FirstIsSome(ops, p, Objects(value));
    forall o: map<string, Json>
      ensures Holds(value, o) <==> o in Objects(value)
      ensures EventMay(ops, p, o, Yes) <==> Accepts(ops, p, o)
    {
      HoldsExactly(value, o);
      MatchesExactly(ops, p, o);
    }
    if NestedMay(ops, p, value, Yes) {
      var o :| o in Objects(value) && EventMay(ops, p, o, Yes);
      assert Holds(value, o) && Accepts(ops, p, o);
    }
  }
}
