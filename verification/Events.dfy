/**
 Event patterns (internal/eventmatch/eventmatch.go:29-283, 355-415, 465-502): nested objects, arrays and
 alternatives. Objects are gone through in an order that changes from call to call, and two collections
 cannot be compared, which ends the program: so a pattern has answers it may give for an event. The leaf
 operators that look at texts, numbers and addresses are a parameter.
 */
module Events {
  import opened Common
  import Wildcards

  datatype Json =
    | Null
    | Bool(b: bool)
    | Num(n: real)
    | Str(s: string)
    | Arr(items: seq<Json>)
    | Obj(fields: map<string, Json>)

  /** Crash is the panic of comparing two arrays or two objects. */
  datatype Answer = Yes | No | Crash

  function Of(b: bool): Answer { if b then Yes else No }

  function Not(a: Answer): Answer {
    match a
    case Yes => No
    case No => Yes
    case Crash => Crash
  }

  /** Whether one of the operators that are a parameter, with a specification, accepts a present value. */
  type Operators = (string, Json, Json) -> bool

  predicate IsReserved(name: string) {
    name in {"prefix", "suffix", "anything-but", "exists", "numeric", "cidr", "equals-ignore-case", "wildcard"}
  }

  predicate IsCollection(v: Json) { v.Arr? || v.Obj? }

  // ---- Operators

  /** equalScalar. */
  function Same(entry: Json, value: Json): Answer {
    if (entry.Arr? && value.Arr?) || (entry.Obj? && value.Obj?) then Crash else Of(entry == value)
  }

  /** A wildcard pattern, or any of a list of them, matches a text. */
  predicate WildcardHolds(spec: Json, value: Json) {
    match spec
    case Str(pattern) => value.Str? && Wildcards.Matches(pattern, value.s)
    case Arr(list) => exists i :: 0 <= i < |list| && WildcardHolds(list[i], value)
    case _ => false
  }

  /** Whether a value is none of a list: they are compared in order up to the first that is not different. */
  function NoneSame(list: seq<Json>, value: Json): Answer {
    if list == [] then Yes
    else if Same(list[0], value) == No then NoneSame(list[1..], value)
    else Not(Same(list[0], value))
  }

  /** An operator object, all of whose operators have to hold: the answers it may give. */
  ghost predicate OperatorMay(ops: Operators, op: Json, value: Json, present: bool, a: Answer)
    requires op.Obj?
    decreases op, 0
  {
    if a.Yes? then forall name <- op.fields :: NamedMay(ops, name, op.fields[name], value, present, Yes)
    else exists name <- op.fields :: NamedMay(ops, name, op.fields[name], value, present, a)
  }

  /** Only exists looks at an absent value. */
  ghost predicate NamedMay(ops: Operators, name: string, spec: Json, value: Json, present: bool, a: Answer)
    decreases spec, 2
  {
    if name == "exists" then a == Of((spec == Bool(true)) == present)
    else if !present then a == No
    else if name == "anything-but" then ButMay(ops, spec, value, a)
    else if name == "wildcard" then a == Of(WildcardHolds(spec, value))
    else a == Of(ops(name, spec, value))
  }

  ghost predicate ButMay(ops: Operators, spec: Json, value: Json, a: Answer)
    decreases spec, 1
  {
    match spec
    case Arr(list) => a == NoneSame(list, value)
    case Obj(_) => OperatorMay(ops, spec, value, true, Not(a))
    case _ => a == Not(Same(spec, value))
  }

  // ---- Leaves

  ghost predicate EntryMay(ops: Operators, entry: Json, value: Json, present: bool, a: Answer) {
    if entry.Obj? then OperatorMay(ops, entry, value, present, a)
    else a == if present then Same(entry, value) else No
  }

  /** The entries are tried in order up to the first that does not say no. */
  ghost predicate EntriesMay(ops: Operators, allowed: seq<Json>, value: Json, present: bool, a: Answer) {
    if allowed == [] then a == No
    else
      || (a != No && EntryMay(ops, allowed[0], value, present, a))
      || (EntryMay(ops, allowed[0], value, present, No) && EntriesMay(ops, allowed[1..], value, present, a))
  }

  /** An array is tried element by element, and then as a whole. */
  ghost predicate LeafMay(ops: Operators, allowed: seq<Json>, value: Json, present: bool, a: Answer) {
    if value.Arr? && present then ElementsMay(ops, allowed, value.items, value, a)
    else EntriesMay(ops, allowed, value, present, a)
  }

  ghost predicate ElementsMay(ops: Operators, allowed: seq<Json>, items: seq<Json>, whole: Json, a: Answer) {
    if items == [] then EntriesMay(ops, allowed, whole, true, a)
    else
      || (a != No && EntriesMay(ops, allowed, items[0], true, a))
      || (EntriesMay(ops, allowed, items[0], true, No) && ElementsMay(ops, allowed, items[1..], whole, a))
  }

  // ---- Objects

  function FieldOf(event: map<string, Json>, key: string): Json { if key in event then event[key] else Null }

  /** At least two patterns, none with an operator's name as a field. */
  predicate IsOrClause(subs: seq<Json>) {
    && |subs| >= 2
    && forall i :: 0 <= i < |subs| ==> subs[i].Obj? && forall k <- subs[i].fields :: !IsReserved(k)
  }

  predicate IsOr(key: string, p: Json) { key == "$or" && p.Arr? && IsOrClause(p.items) }

  /** Every field of the pattern has to match. */
  ghost predicate EventMay(ops: Operators, pattern: Json, event: map<string, Json>, a: Answer)
    requires pattern.Obj?
    decreases pattern, 0
  {
    if a.Yes? then forall key <- pattern.fields :: KeyMay(ops, key, pattern.fields[key], event, Yes)
    else exists key <- pattern.fields :: KeyMay(ops, key, pattern.fields[key], event, a)
  }

  ghost predicate KeyMay(ops: Operators, key: string, p: Json, event: map<string, Json>, a: Answer)
    decreases p, 2
  {
    if IsOr(key, p) then OrMay(ops, p.items, event, a)
    else match p
      case Arr(allowed) => LeafMay(ops, allowed, FieldOf(event, key), key in event, a)
      case Obj(_) => NestedMay(ops, p, FieldOf(event, key), a)
      case _ => a == No
  }

  /** The alternatives in order, up to the first that does not say no. */
  ghost predicate OrMay(ops: Operators, subs: seq<Json>, event: map<string, Json>, a: Answer)
    requires forall i :: 0 <= i < |subs| ==> subs[i].Obj?
    decreases subs, 1
  {
    if subs == [] then a == No
    else
      || (a != No && EventMay(ops, subs[0], event, a))
      || (EventMay(ops, subs[0], event, No) && OrMay(ops, subs[1..], event, a))
  }

  /** A nested pattern is tried on an object, or on the elements of an array in order, however nested. */
  ghost predicate NestedMay(ops: Operators, pattern: Json, value: Json, a: Answer)
    requires pattern.Obj?
    decreases pattern, 1, value, 0
  {
    match value
    case Obj(event) => EventMay(ops, pattern, event, a)
    case Arr(items) => ItemsMay(ops, pattern, items, a)
    case _ => a == No
  }

  ghost predicate ItemsMay(ops: Operators, pattern: Json, items: seq<Json>, a: Answer)
    requires pattern.Obj?
    decreases pattern, 1, items, 1
  {
    if items == [] then a == No
    else
      || (a != No && NestedMay(ops, pattern, items[0], a))
      || (NestedMay(ops, pattern, items[0], No) && ItemsMay(ops, pattern, items[1..], a))
  }

  // ---- The matcher

  method MatchWildcard(spec: Json, value: Json) returns (matches: bool)
    ensures matches == WildcardHolds(spec, value)
    decreases spec
  {
    if spec.Arr? {
      for i := 0 to |spec.items|
        invariant forall j :: 0 <= j < i ==> !WildcardHolds(spec.items[j], value)
      {
        var here := MatchWildcard(spec.items[i], value);
        if here { return true; }
      }
      return false;
    }
    if !spec.Str? || !value.Str? { return false; }
    matches := Wildcards.WildcardMatch(spec.s, value.s);
  }

  method MatchAnythingBut(ops: Operators, spec: Json, value: Json) returns (a: Answer)
    ensures ButMay(ops, spec, value, a)
    decreases spec, 1
  {
    match spec {
      case Arr(list) =>
        for i := 0 to |list|
          invariant NoneSame(list[i..], value) == NoneSame(list, value)
        {
          a := Not(Same(list[i], value));
          assert list[i..][1..] == list[i + 1..];
          if a != Yes { return; }
        }
        a := Yes;
        assert NoneSame(list[|list|..], value) == Yes;
      case Obj(_) =>
        a := MatchOperator(ops, spec, value, true);
        a := Not(a);
      case _ => a := Not(Same(spec, value));
    }
  }

  /** matchOperator: the operators in any order, up to the first that does not hold. */
  method MatchOperator(ops: Operators, op: Json, value: Json, present: bool) returns (a: Answer)
    requires op.Obj?
    ensures OperatorMay(ops, op, value, present, a)
    decreases op, 0
  {
    var names := op.fields.Keys;
    while names != {}
      invariant names <= op.fields.Keys
      invariant forall name <- op.fields :: name !in names ==> NamedMay(ops, name, op.fields[name], value, present, Yes)
      decreases |names|
    {
      var name :| name in names;
      a := MatchNamed(ops, name, op.fields[name], value, present);
      if a != Yes { return; }
      names := names - {name};
    }
    a := Yes;
  }

  method MatchNamed(ops: Operators, name: string, spec: Json, value: Json, present: bool) returns (a: Answer)
    ensures NamedMay(ops, name, spec, value, present, a)
    decreases spec, 2
  {
    hide WildcardHolds, ButMay;
    if name == "exists" { return Of((spec == Bool(true)) == present); }
    if !present { return No; }
    if name == "anything-but" {
      a := MatchAnythingBut(ops, spec, value);
    } else if name == "wildcard" {
      var matches := MatchWildcard(spec, value);
      a := Of(matches);
    } else {
      a := Of(ops(name, spec, value));
    }
  }

  method MatchEntry(ops: Operators, entry: Json, value: Json, present: bool) returns (a: Answer)
    ensures EntryMay(ops, entry, value, present, a)
  {
    hide OperatorMay;
    if entry.Obj? {
      a := MatchOperator(ops, entry, value, present);
    } else {
      a := if present then Same(entry, value) else No;
    }
  }

  method MatchAnyEntry(ops: Operators, allowed: seq<Json>, value: Json, present: bool) returns (a: Answer)
    ensures EntriesMay(ops, allowed, value, present, a)
  {
    hide EntryMay;
    for i := 0 to |allowed|
      invariant forall b :: EntriesMay(ops, allowed[i..], value, present, b) ==>
                            EntriesMay(ops, allowed, value, present, b)
    {
      a := MatchEntry(ops, allowed[i], value, present);
      assert allowed[i..][1..] == allowed[i + 1..];
      if a != No {
        assert EntriesMay(ops, allowed[i..], value, present, a);
        return;
      }
    }
    a := No;
    assert EntriesMay(ops, allowed[|allowed|..], value, present, No);
  }

  method MatchLeaf(ops: Operators, allowed: seq<Json>, value: Json, present: bool) returns (a: Answer)
    ensures LeafMay(ops, allowed, value, present, a)
  {
    hide EntriesMay;
    if value.Arr? && present {
      var items := value.items;
      for i := 0 to |items|
        invariant forall b :: ElementsMay(ops, allowed, items[i..], value, b) ==>
                              LeafMay(ops, allowed, value, present, b)
      {
        a := MatchAnyEntry(ops, allowed, items[i], true);
        assert items[i..][1..] == items[i + 1..];
        if a != No {
          assert ElementsMay(ops, allowed, items[i..], value, a);
          return;
        }
      }
      assert items[|items|..] == [];
      a := MatchAnyEntry(ops, allowed, value, true);
      assert ElementsMay(ops, allowed, items[|items|..], value, a);
      return;
    }
    a := MatchAnyEntry(ops, allowed, value, present);
  }

  /** MatchEvent: the fields of the pattern in any order, up to the first that does not match. */
  method MatchEvent(ops: Operators, pattern: Json, event: map<string, Json>) returns (a: Answer)
    requires pattern.Obj?
    ensures EventMay(ops, pattern, event, a)
    decreases pattern, 0
  {
    hide KeyMay;
    var keys := pattern.fields.Keys;
    while keys != {}
      invariant keys <= pattern.fields.Keys
      invariant forall key <- pattern.fields :: key !in keys ==> KeyMay(ops, key, pattern.fields[key], event, Yes)
      decreases |keys|
    {
      var key :| key in keys;
      a := MatchKey(ops, key, pattern.fields[key], event);
      if a != Yes { return; }
      keys := keys - {key};
    }
    a := Yes;
  }

  method MatchKey(ops: Operators, key: string, p: Json, event: map<string, Json>) returns (a: Answer)
    ensures KeyMay(ops, key, p, event, a)
    decreases p, 2
  {
    hide LeafMay, NestedMay, OrMay;
    if IsOr(key, p) {
      a := MatchOr(ops, p.items, event);
      return;
    }
    match p {
      case Arr(allowed) => a := MatchLeaf(ops, allowed, FieldOf(event, key), key in event);
      case Obj(_) => a := MatchNested(ops, p, FieldOf(event, key));
      case _ => a := No;
    }
  }

  method MatchOr(ops: Operators, subs: seq<Json>, event: map<string, Json>) returns (a: Answer)
    requires forall i :: 0 <= i < |subs| ==> subs[i].Obj?
    ensures OrMay(ops, subs, event, a)
    decreases subs, 1
  {
    hide EventMay;
    for i := 0 to |subs|
      invariant forall b :: OrMay(ops, subs[i..], event, b) ==> OrMay(ops, subs, event, b)
    {
      a := MatchEvent(ops, subs[i], event);
      assert subs[i..][1..] == subs[i + 1..];
      if a != No {
        assert OrMay(ops, subs[i..], event, a);
        return;
      }
    }
    a := No;
    assert OrMay(ops, subs[|subs|..], event, No);
  }

  method MatchNested(ops: Operators, pattern: Json, value: Json) returns (a: Answer)
    requires pattern.Obj?
    ensures NestedMay(ops, pattern, value, a)
    decreases pattern, 1, value, 0
  {
    match value {
      case Obj(event) => a := MatchEvent(ops, pattern, event);
      case Arr(items) => a := MatchElements(ops, pattern, items);
      case _ => a := No;
    }
  }

  /** The loop over the elements of an array. */
  method MatchElements(ops: Operators, pattern: Json, items: seq<Json>) returns (a: Answer)
    requires pattern.Obj?
    ensures ItemsMay(ops, pattern, items, a)
    decreases pattern, 1, items, 1
  {
    hide NestedMay;
    for i := 0 to |items|
      invariant forall b :: ItemsMay(ops, pattern, items[i..], b) ==> ItemsMay(ops, pattern, items, b)
    {
      a := MatchNested(ops, pattern, items[i]);
      assert items[i..][1..] == items[i + 1..];
      if a != No {
        assert ItemsMay(ops, pattern, items[i..], a);
        return;
      }
    }
    a := No;
    assert ItemsMay(ops, pattern, items[|items|..], No);
  }

  // ---- Patterns that always have one answer

  /** No collection is compared: no entry of a leaf is an array, and what is ruled out are plain values. */
  predicate TameEntry(entry: Json) { !entry.Arr? && (entry.Obj? ==> TameOperator(entry)) }

  predicate TameOperator(op: Json)
    requires op.Obj?
    decreases op, 0
  {
    forall name <- op.fields :: name == "anything-but" ==> TameSpec(op.fields[name])
  }

  predicate TameSpec(spec: Json)
    decreases spec, 1
  {
    match spec
    case Arr(list) => forall i :: 0 <= i < |list| ==> !IsCollection(list[i])
    case Obj(_) => TameOperator(spec)
    case _ => true
  }

  predicate Tame(pattern: Json)
    requires pattern.Obj?
    decreases pattern, 0
  {
    forall key <- pattern.fields :: TameKey(key, pattern.fields[key])
  }

  predicate TameKey(key: string, p: Json)
    decreases p, 1
  {
    if IsOr(key, p) then forall i :: 0 <= i < |p.items| ==> p.items[i].Obj? && Tame(p.items[i])
    else match p
      case Arr(allowed) => TameLeaf(allowed)
      case Obj(_) => Tame(p)
      case _ => true
  }

  predicate TameLeaf(allowed: seq<Json>) { forall i :: 0 <= i < |allowed| ==> TameEntry(allowed[i]) }

  /** One of yes and no is possible, and nothing else. */
  predicate Decided(yes: bool, no: bool, crash: bool) { yes != no && !crash }

  lemma {:induction false} OperatorDecided(ops: Operators, op: Json, value: Json, present: bool)
    requires op.Obj? && TameOperator(op)
    ensures Decided(OperatorMay(ops, op, value, present, Yes), OperatorMay(ops, op, value, present, No),
                    OperatorMay(ops, op, value, present, Crash))
    decreases op, 0
  {
    forall name <- op.fields ensures NamedDecided(ops, name, op.fields[name], value, present) {
      NamedIsDecided(ops, name, op.fields[name], value, present);
    }
    hide NamedMay, TameSpec;
  }

  ghost predicate NamedDecided(ops: Operators, name: string, spec: Json, value: Json, present: bool) {
    Decided(NamedMay(ops, name, spec, value, present, Yes), NamedMay(ops, name, spec, value, present, No),
            NamedMay(ops, name, spec, value, present, Crash))
  }

  lemma {:induction false} NamedIsDecided(ops: Operators, name: string, spec: Json, value: Json, present: bool)
    requires name == "anything-but" ==> TameSpec(spec)
    ensures NamedDecided(ops, name, spec, value, present)
    decreases spec, 2
  {
    if name == "anything-but" { ButDecided(ops, spec, value); }
    hide ButMay, WildcardHolds;
  }

  lemma {:induction false} ButDecided(ops: Operators, spec: Json, value: Json)
    requires TameSpec(spec)
    ensures Decided(ButMay(ops, spec, value, Yes), ButMay(ops, spec, value, No), ButMay(ops, spec, value, Crash))
    decreases spec, 1
  {
    if spec.Arr? {
      NoneSameIsTame(spec.items, value);
    } else if spec.Obj? {
      OperatorDecided(ops, spec, value, true);
    }
    hide OperatorMay, NoneSame;
  }

  lemma {:induction false} NoneSameIsTame(list: seq<Json>, value: Json)
    requires forall i :: 0 <= i < |list| ==> !IsCollection(list[i])
    ensures NoneSame(list, value) != Crash
  {
    if list != [] { NoneSameIsTame(list[1..], value); }
  }

  ghost predicate EntryDecided(ops: Operators, entry: Json, value: Json, present: bool) {
    Decided(EntryMay(ops, entry, value, present, Yes), EntryMay(ops, entry, value, present, No),
            EntryMay(ops, entry, value, present, Crash))
  }

  lemma TameEntryDecided(ops: Operators, entry: Json, value: Json, present: bool)
    requires TameEntry(entry)
    ensures EntryDecided(ops, entry, value, present)
  {
    if entry.Obj? { OperatorDecided(ops, entry, value, present); }
    hide OperatorMay, TameOperator;
  }

  ghost predicate EntriesDecided(ops: Operators, allowed: seq<Json>, value: Json, present: bool) {
    Decided(EntriesMay(ops, allowed, value, present, Yes), EntriesMay(ops, allowed, value, present, No),
            EntriesMay(ops, allowed, value, present, Crash))
  }

  lemma {:induction false} TameEntriesDecided(ops: Operators, allowed: seq<Json>, value: Json, present: bool)
    requires TameLeaf(allowed)
    ensures EntriesDecided(ops, allowed, value, present)
  {
    if allowed != [] {
      assert TameEntry(allowed[0]) && TameLeaf(allowed[1..]);
      hide EntryMay, TameEntry, TameLeaf;
      TameEntryDecided(ops, allowed[0], value, present);
      TameEntriesDecided(ops, allowed[1..], value, present);
    }
  }

  ghost predicate ElementsDecided(ops: Operators, allowed: seq<Json>, items: seq<Json>, whole: Json) {
    Decided(ElementsMay(ops, allowed, items, whole, Yes), ElementsMay(ops, allowed, items, whole, No),
            ElementsMay(ops, allowed, items, whole, Crash))
  }

  lemma {:induction false} TameElementsDecided(ops: Operators, allowed: seq<Json>, items: seq<Json>, whole: Json)
    requires TameLeaf(allowed)
    ensures ElementsDecided(ops, allowed, items, whole)
  {
    hide EntriesMay, TameLeaf;
    if items == [] {
      TameEntriesDecided(ops, allowed, whole, true);
    } else {
      TameEntriesDecided(ops, allowed, items[0], true);
      TameElementsDecided(ops, allowed, items[1..], whole);
    }
  }

  lemma LeafDecided(ops: Operators, allowed: seq<Json>, value: Json, present: bool)
    requires TameLeaf(allowed)
    ensures Decided(LeafMay(ops, allowed, value, present, Yes), LeafMay(ops, allowed, value, present, No),
                    LeafMay(ops, allowed, value, present, Crash))
  {
    TameEntriesDecided(ops, allowed, value, present);
    if value.Arr? { TameElementsDecided(ops, allowed, value.items, value); }
    hide EntriesMay, ElementsMay;
  }

  ghost predicate EventDecided(ops: Operators, pattern: Json, event: map<string, Json>)
    requires pattern.Obj?
  {
    Decided(EventMay(ops, pattern, event, Yes), EventMay(ops, pattern, event, No), EventMay(ops, pattern, event, Crash))
  }

  ghost predicate KeyDecided(ops: Operators, key: string, p: Json, event: map<string, Json>) {
    Decided(KeyMay(ops, key, p, event, Yes), KeyMay(ops, key, p, event, No), KeyMay(ops, key, p, event, Crash))
  }

  /**
   A pattern that compares no collections never crashes and gives every event one answer, whatever the
   order in which the fields of pattern and operators are gone through.
   */
  lemma {:induction false} TameIsDecided(ops: Operators, pattern: Json, event: map<string, Json>)
    requires pattern.Obj? && Tame(pattern)
    ensures EventDecided(ops, pattern, event)
    decreases pattern, 0
  {
    forall key <- pattern.fields ensures KeyDecided(ops, key, pattern.fields[key], event) {
      KeyIsDecided(ops, key, pattern.fields[key], event);
    }
    hide KeyMay, TameKey;
  }

  lemma {:induction false} KeyIsDecided(ops: Operators, key: string, p: Json, event: map<string, Json>)
    requires TameKey(key, p)
    ensures KeyDecided(ops, key, p, event)
    decreases p, 2
  {
    if IsOr(key, p) {
      OrDecided(ops, p.items, event);
    } else if p.Arr? {
      LeafDecided(ops, p.items, FieldOf(event, key), key in event);
    } else if p.Obj? {
      NestedDecided(ops, p, FieldOf(event, key));
    }
    hide OrMay, LeafMay, NestedMay;
  }

  lemma {:induction false} OrDecided(ops: Operators, subs: seq<Json>, event: map<string, Json>)
    requires forall i :: 0 <= i < |subs| ==> subs[i].Obj? && Tame(subs[i])
    ensures Decided(OrMay(ops, subs, event, Yes), OrMay(ops, subs, event, No), OrMay(ops, subs, event, Crash))
    decreases subs, 1
  {
    hide EventMay, Tame;
    if subs != [] {
      TameIsDecided(ops, subs[0], event);
      OrDecided(ops, subs[1..], event);
    }
  }

  lemma {:induction false} NestedDecided(ops: Operators, pattern: Json, value: Json)
    requires pattern.Obj? && Tame(pattern)
    ensures Decided(NestedMay(ops, pattern, value, Yes), NestedMay(ops, pattern, value, No),
                    NestedMay(ops, pattern, value, Crash))
    decreases pattern, 1, value, 0
  {
    match value
    case Obj(event) => TameIsDecided(ops, pattern, event);
    case Arr(items) => ItemsDecided(ops, pattern, items);
    case _ =>
  }

  lemma {:induction false} ItemsDecided(ops: Operators, pattern: Json, items: seq<Json>)
    requires pattern.Obj? && Tame(pattern)
    ensures Decided(ItemsMay(ops, pattern, items, Yes), ItemsMay(ops, pattern, items, No),
                    ItemsMay(ops, pattern, items, Crash))
    decreases pattern, 1, items, 1
  {
    hide NestedMay, Tame;
    if items != [] {
      NestedDecided(ops, pattern, items[0]);
      ItemsDecided(ops, pattern, items[1..]);
    }
  }

  // ---- Where matching crashes

  /** What parsing accepts as a pattern: every field is an array, or an object that again is one. */
  predicate ValidPattern(pattern: Json)
    decreases pattern
  {
    pattern.Obj? && forall key <- pattern.fields ::
      var v := pattern.fields[key]; v.Arr? || (v.Obj? && ValidPattern(v))
  }

  /** Two arrays, or two objects. */
  predicate SameKind(a: Json, b: Json) { (a.Arr? && b.Arr?) || (a.Obj? && b.Obj?) }

  /** What an anything-but rules out, or an operator object in it at any depth, has a collection of the value's kind. */
  predicate RulesOut(spec: Json, value: Json)
    decreases spec
  {
    match spec
    case Arr(list) => exists i :: 0 <= i < |list| && SameKind(list[i], value)
    case Obj(op) => "anything-but" in op && RulesOut(op["anything-but"], value)
    case _ => false
  }

  lemma {:induction false} ListCrashesExactly(list: seq<Json>, value: Json)
    ensures NoneSame(list, value) == Crash <==> exists i :: 0 <= i < |list| && SameKind(list[i], value)
  {
    if list != [] {
      var rest := list[1..];
      forall i | 0 <= i < |rest| ensures rest[i] == list[i + 1] {}
      ListCrashesExactly(rest, value);
      if i :| 0 <= i < |list| && SameKind(list[i], value) {
        assert Same(list[0], value) != Yes;
        if i > 0 { assert SameKind(rest[i - 1], value); }
      }
      if i :| 0 <= i < |rest| && SameKind(rest[i], value) { assert SameKind(list[i + 1], value); }
    }
  }

  /** An operator may crash exactly on a value that is there and of a kind it rules out. */
  lemma {:induction false} OperatorCrashesExactly(ops: Operators, op: Json, value: Json, present: bool)
    requires op.Obj?
    ensures OperatorMay(ops, op, value, present, Crash) <==> present && RulesOut(op, value)
    decreases op, 0
  {
    forall name <- op.fields ensures NamedCrashes(ops, name, op.fields[name], value, present) {
      NamedCrashesExactly(ops, name, op.fields[name], value, present);
    }
    hide NamedMay;
  }

  ghost predicate NamedCrashes(ops: Operators, name: string, spec: Json, value: Json, present: bool) {
    NamedMay(ops, name, spec, value, present, Crash) <==> present && name == "anything-but" && RulesOut(spec, value)
  }

  lemma {:induction false} NamedCrashesExactly(ops: Operators, name: string, spec: Json, value: Json, present: bool)
    ensures NamedCrashes(ops, name, spec, value, present)
    decreases spec, 2
  {
    if name == "anything-but" { ButCrashesExactly(ops, spec, value); }
    hide ButMay, WildcardHolds, RulesOut;
  }

  lemma {:induction false} ButCrashesExactly(ops: Operators, spec: Json, value: Json)
    ensures ButMay(ops, spec, value, Crash) <==> RulesOut(spec, value)
    decreases spec, 1
  {
    if spec.Arr? {
      ListCrashesExactly(spec.items, value);
    } else if spec.Obj? {
      OperatorCrashesExactly(ops, spec, value, true);
    }
    hide OperatorMay, NoneSame;
  }

  /** An entry compares the value with a collection of its kind. */
  predicate EntryCrashes(entry: Json, value: Json) {
    if entry.Obj? then RulesOut(entry, value) else SameKind(entry, value)
  }

  lemma EntryCrashesExactly(ops: Operators, entry: Json, value: Json, present: bool)
    ensures EntryMay(ops, entry, value, present, Crash) <==> present && EntryCrashes(entry, value)
  {
    if entry.Obj? { OperatorCrashesExactly(ops, entry, value, present); }
    hide OperatorMay, RulesOut;
  }

  /** The values a leaf is tried on: the elements of an array, and then the value itself. */
  function Tried(value: Json): seq<Json> { if value.Arr? then value.items + [value] else [value] }

  /** All of the entries may refuse a value. */
  ghost predicate Refuse(ops: Operators, allowed: seq<Json>, value: Json) {
    forall k :: 0 <= k < |allowed| ==> EntryMay(ops, allowed[k], value, true, No)
  }

  ghost predicate RefuseAll(ops: Operators, allowed: seq<Json>, tried: seq<Json>) {
    forall n :: 0 <= n < |tried| ==> Refuse(ops, allowed, tried[n])
  }

  /** The k-th entry may give the answer, after those before it have refused. */
  ghost predicate EntryAt(ops: Operators, allowed: seq<Json>, value: Json, k: nat, a: Answer) {
    k < |allowed| && EntryMay(ops, allowed[k], value, true, a) && Refuse(ops, allowed[..k], value)
  }

  /** The k-th entry may give the answer for the n-th value, after all that is tried before has been refused. */
  ghost predicate AnsweredAt(ops: Operators, allowed: seq<Json>, tried: seq<Json>, n: nat, k: nat, a: Answer) {
    n < |tried| && EntryAt(ops, allowed, tried[n], k, a) && RefuseAll(ops, allowed, tried[..n])
  }

  lemma RefuseMore(ops: Operators, allowed: seq<Json>, value: Json)
    requires allowed != []
    ensures Refuse(ops, allowed, value) <==>
            EntryMay(ops, allowed[0], value, true, No) && Refuse(ops, allowed[1..], value)
  {
    hide EntryMay;
    if EntryMay(ops, allowed[0], value, true, No) && Refuse(ops, allowed[1..], value) {
      forall k | 0 <= k < |allowed| ensures EntryMay(ops, allowed[k], value, true, No) {
        if k > 0 { assert allowed[1..][k - 1] == allowed[k]; }
      }
    }
  }

  lemma RefuseAllMore(ops: Operators, allowed: seq<Json>, tried: seq<Json>)
    requires tried != []
    ensures RefuseAll(ops, allowed, tried) <==>
            Refuse(ops, allowed, tried[0]) && RefuseAll(ops, allowed, tried[1..])
  {
    hide Refuse;
    if Refuse(ops, allowed, tried[0]) && RefuseAll(ops, allowed, tried[1..]) {
      forall n | 0 <= n < |tried| ensures Refuse(ops, allowed, tried[n]) {
        if n > 0 { assert tried[1..][n - 1] == tried[n]; }
      }
    }
  }

  /** One place further on is the same place in what is left. */
  lemma EntryAtNext(ops: Operators, allowed: seq<Json>, value: Json, k: nat, a: Answer)
    requires allowed != []
    ensures EntryAt(ops, allowed, value, 0, a) <==> EntryMay(ops, allowed[0], value, true, a)
    ensures EntryAt(ops, allowed, value, k + 1, a) <==>
            EntryMay(ops, allowed[0], value, true, No) && EntryAt(ops, allowed[1..], value, k, a)
  {
    hide EntryMay;
    if k + 1 < |allowed| {
      RefuseMore(ops, allowed[..k + 1], value);
      assert allowed[..k + 1][1..] == allowed[1..][..k];
    }
    hide Refuse;
    assert allowed[..0] == [];
    NothingToRefuse(ops, value);
  }

  lemma NothingToRefuse(ops: Operators, value: Json)
    ensures Refuse(ops, [], value)
  {
  }

  lemma {:induction false} EntriesExactly(ops: Operators, allowed: seq<Json>, value: Json, a: Answer)
    ensures EntriesMay(ops, allowed, value, true, a) <==>
            if a.No? then Refuse(ops, allowed, value) else exists k: nat :: EntryAt(ops, allowed, value, k, a)
  {
    if allowed != [] {
      hide EntryMay;
      EntriesExactly(ops, allowed[1..], value, a);
      if a.No? {
        RefuseMore(ops, allowed, value);
      } else {
        hide EntryAt;
        EntryAtNext(ops, allowed, value, 0, a);
        if k: nat :| EntryAt(ops, allowed, value, k, a) {
          if k > 0 { EntryAtNext(ops, allowed, value, k - 1, a); }
        }
        if k: nat :| EntryAt(ops, allowed[1..], value, k, a) {
          EntryAtNext(ops, allowed, value, k, a);
        }
      }
    }
  }

  lemma AnsweredAtNext(ops: Operators, allowed: seq<Json>, tried: seq<Json>, n: nat, k: nat, a: Answer)
    requires tried != []
    ensures AnsweredAt(ops, allowed, tried, 0, k, a) <==> EntryAt(ops, allowed, tried[0], k, a)
    ensures AnsweredAt(ops, allowed, tried, n + 1, k, a) <==>
            Refuse(ops, allowed, tried[0]) && AnsweredAt(ops, allowed, tried[1..], n, k, a)
  {
    hide EntryAt, Refuse;
    if n + 1 < |tried| {
      RefuseAllMore(ops, allowed, tried[..n + 1]);
      assert tried[..n + 1][1..] == tried[1..][..n];
    }
    assert RefuseAll(ops, allowed, tried[..0]);
    hide RefuseAll;
  }

  ghost predicate Answered(ops: Operators, allowed: seq<Json>, tried: seq<Json>, a: Answer) {
    if a.No? then RefuseAll(ops, allowed, tried) else exists n: nat, k: nat :: AnsweredAt(ops, allowed, tried, n, k, a)
  }

  lemma AnsweredFirst(ops: Operators, allowed: seq<Json>, tried: seq<Json>, a: Answer)
    requires tried != []
    ensures Answered(ops, allowed, tried, a) <==>
            (a != No && EntriesMay(ops, allowed, tried[0], true, a)) ||
            (EntriesMay(ops, allowed, tried[0], true, No) && Answered(ops, allowed, tried[1..], a))
  {
    EntriesExactly(ops, allowed, tried[0], a);
    EntriesExactly(ops, allowed, tried[0], No);
    hide EntriesMay, AnsweredAt, EntryAt, Refuse;
    if a.No? {
      RefuseAllMore(ops, allowed, tried);
    } else {
      hide RefuseAll;
      if n: nat, k: nat :| AnsweredAt(ops, allowed, tried, n, k, a) {
        AnsweredAtNext(ops, allowed, tried, if n > 0 then n - 1 else 0, k, a);
      }
      if k: nat :| EntryAt(ops, allowed, tried[0], k, a) { AnsweredAtNext(ops, allowed, tried, 0, k, a); }
      if n: nat, k: nat :| AnsweredAt(ops, allowed, tried[1..], n, k, a) {
        AnsweredAtNext(ops, allowed, tried, n, k, a);
      }
    }
  }

  lemma NothingTried(ops: Operators, allowed: seq<Json>, a: Answer)
    ensures Answered(ops, allowed, [], a) <==> a.No?
  {
  }

  lemma AnsweredOne(ops: Operators, allowed: seq<Json>, value: Json, a: Answer)
    ensures Answered(ops, allowed, [value], a) <==> EntriesMay(ops, allowed, value, true, a)
  {
    AnsweredFirst(ops, allowed, [value], a);
    NothingTried(ops, allowed, a);
    assert [value][1..] == [];
    hide Answered, EntriesMay;
  }

  lemma {:induction false} ElementsExactly(ops: Operators, allowed: seq<Json>, items: seq<Json>, whole: Json, a: Answer)
    ensures ElementsMay(ops, allowed, items, whole, a) <==> Answered(ops, allowed, items + [whole], a)
  {
    hide EntriesMay, Answered;
    if items == [] {
      assert items + [whole] == [whole];
      AnsweredOne(ops, allowed, whole, a);
    } else {
      ElementsExactly(ops, allowed, items[1..], whole, a);
      AnsweredFirst(ops, allowed, items + [whole], a);
      assert (items + [whole])[1..] == items[1..] + [whole];
    }
  }

  /**
   A leaf may answer yes, or crash, for a value that is there exactly when some entry may for some of the values
   tried, after everything tried before has been refused; and no exactly when everything may be refused.
   */
  lemma LeafAnswersExactly(ops: Operators, allowed: seq<Json>, value: Json, a: Answer)
    ensures LeafMay(ops, allowed, value, true, a) <==> Answered(ops, allowed, Tried(value), a)
  {
    hide EntriesMay, ElementsMay, Answered;
    if value.Arr? {
      ElementsExactly(ops, allowed, value.items, value, a);
    } else {
      AnsweredOne(ops, allowed, value, a);
    }
  }

  /** The k-th entry compares the n-th value with a collection of its kind, all before having been refused. */
  ghost predicate LeafCrashAt(ops: Operators, allowed: seq<Json>, tried: seq<Json>, n: nat, k: nat) {
    && n < |tried| && k < |allowed| && EntryCrashes(allowed[k], tried[n])
    && Refuse(ops, allowed[..k], tried[n]) && RefuseAll(ops, allowed, tried[..n])
  }

  /**
   A leaf may crash exactly on a value that is there, when an entry compares one of the values tried, the
   elements of an array and then the array, with a collection of its kind, before anything else is accepted.
   */
  lemma LeafCrashesExactly(ops: Operators, allowed: seq<Json>, value: Json, present: bool)
    ensures LeafMay(ops, allowed, value, present, Crash) <==>
            present && exists n: nat, k: nat :: LeafCrashAt(ops, allowed, Tried(value), n, k)
  {
    if present {
      LeafAnswersExactly(ops, allowed, value, Crash);
      var tried := Tried(value);
      forall n: nat, k: nat
        ensures LeafCrashAt(ops, allowed, tried, n, k) <==> AnsweredAt(ops, allowed, tried, n, k, Crash)
      {
        if n < |tried| && k < |allowed| { EntryCrashesExactly(ops, allowed[k], tried[n], true); }
        hide EntryMay, EntryCrashes, Refuse, RefuseAll;
      }
      hide LeafMay, LeafCrashAt, AnsweredAt;
    } else {
      AbsentMatchesExactly(ops, allowed, value, Crash);
      hide LeafMay;
    }
  }

  predicate NoOperator(allowed: seq<Json>) { forall i :: 0 <= i < |allowed| ==> !allowed[i].Obj? }

  /** One of the elements before the first array is a plain value among the entries. */
  predicate FoundBeforeArray(allowed: seq<Json>, items: seq<Json>) {
    items != [] && !items[0].Arr? && ((!items[0].Obj? && items[0] in allowed) || FoundBeforeArray(allowed, items[1..]))
  }

  predicate NoArray(items: seq<Json>) { forall j :: 0 <= j < |items| ==> !items[j].Arr? }

  /** Plain entries on one value: with an array among them an array crashes, anything else is looked up. */
  lemma {:induction false} PlainEntries(ops: Operators, allowed: seq<Json>, value: Json, a: Answer)
    requires NoOperator(allowed)
    ensures EntriesMay(ops, allowed, value, true, a) <==>
            a == if value.Arr? then (if NoArray(allowed) then No else Crash) else Of(!value.Obj? && value in allowed)
  {
    if allowed != [] {
      var rest := allowed[1..];
      forall i | 0 <= i < |rest| ensures rest[i] == allowed[i + 1] {}
      PlainEntries(ops, rest, value, a);
      assert value in allowed <==> value == allowed[0] || value in rest;
      assert NoArray(allowed) <==> !allowed[0].Arr? && NoArray(rest) by {
        if !allowed[0].Arr? && NoArray(rest) {
          forall j | 0 <= j < |allowed| ensures !allowed[j].Arr? { if j > 0 { assert rest[j - 1] == allowed[j]; } }
        }
      }
      hide NoArray, OperatorMay;
    }
  }

  lemma {:induction false} PlainElements(ops: Operators, allowed: seq<Json>, items: seq<Json>, whole: Json, a: Answer)
    requires NoOperator(allowed) && !NoArray(allowed) && whole.Arr?
    ensures ElementsMay(ops, allowed, items, whole, a) <==> a == if FoundBeforeArray(allowed, items) then Yes else Crash
  {
    hide EntriesMay, NoArray, NoOperator;
    if items == [] {
      PlainEntries(ops, allowed, whole, a);
    } else {
      PlainEntries(ops, allowed, items[0], a);
      PlainEntries(ops, allowed, items[0], No);
      PlainElements(ops, allowed, items[1..], whole, a);
    }
  }

  lemma {:induction false} PlainLookup(ops: Operators, allowed: seq<Json>, items: seq<Json>, whole: Json, a: Answer)
    requires NoOperator(allowed) && NoArray(allowed) && whole.Arr?
    ensures ElementsMay(ops, allowed, items, whole, a) <==> a == Of(SomePlain(allowed, items))
  {
    hide EntriesMay, NoArray, NoOperator;
    if items == [] {
      PlainEntries(ops, allowed, whole, a);
    } else {
      PlainEntries(ops, allowed, items[0], a);
      PlainEntries(ops, allowed, items[0], No);
      PlainLookup(ops, allowed, items[1..], whole, a);
    }
  }

  predicate SomePlain(allowed: seq<Json>, items: seq<Json>) {
    items != [] && ((!IsCollection(items[0]) && items[0] in allowed) || SomePlain(allowed, items[1..]))
  }

  /** What a leaf without operators answers for a value that is there. */
  function PlainAnswer(allowed: seq<Json>, value: Json): Answer {
    if !value.Arr? then Of(!value.Obj? && value in allowed)
    else if NoArray(allowed) then Of(SomePlain(allowed, value.items))
    else if FoundBeforeArray(allowed, value.items) then Yes
    else Crash
  }

  /**
   Without operators the order of fields plays no part, and a leaf has one answer: the crash when the value and
   one of the entries are arrays and no element before the first array among the elements is found.
   */
  lemma PlainLeafExactly(ops: Operators, allowed: seq<Json>, value: Json, a: Answer)
    requires NoOperator(allowed)
    ensures LeafMay(ops, allowed, value, true, a) <==> a == PlainAnswer(allowed, value)
  {
    PlainEntries(ops, allowed, value, a);
    if value.Arr? {
      if NoArray(allowed) {
        PlainLookup(ops, allowed, value.items, value, a);
      } else {
        PlainElements(ops, allowed, value.items, value, a);
      }
    }
    hide EntriesMay, ElementsMay, NoArray, NoOperator, SomePlain, FoundBeforeArray;
  }

  /** A pattern that is accepted, and an event it has no answer for: {"a": [[1]]} and {"a": [1]}. */
  lemma AcceptedPatternCrashes(ops: Operators, a: Answer)
    ensures var pattern := Obj(map["a" := Arr([Arr([Num(1.0)])])]);
      ValidPattern(pattern) && (EventMay(ops, pattern, map["a" := Arr([Num(1.0)])], a) <==> a == Crash)
  {
    var allowed, value := [Arr([Num(1.0)])], Arr([Num(1.0)]);
    var pattern, event := Obj(map["a" := Arr(allowed)]), map["a" := value];
    assert allowed[0].Arr?;
    assert !FoundBeforeArray(allowed, value.items) by { assert value.items[1..] == []; }
    PlainLeafExactly(ops, allowed, value, a);
    PlainLeafExactly(ops, allowed, value, Yes);
    assert KeyMay(ops, "a", pattern.fields["a"], event, a) <==> LeafMay(ops, allowed, value, true, a);
    assert KeyMay(ops, "a", pattern.fields["a"], event, Yes) <==> LeafMay(ops, allowed, value, true, Yes);
    hide KeyMay, LeafMay, PlainAnswer;
    assert pattern.fields.Keys == {"a"};
  }

  /** Another one, of another kind: {"a": [{"anything-but": [{"x": 1}]}]} and {"a": {}}. */
  lemma AcceptedExclusionCrashes(ops: Operators, a: Answer)
    ensures var spec := Arr([Obj(map["x" := Num(1.0)])]);
      var pattern := Obj(map["a" := Arr([Obj(map["anything-but" := spec])])]);
      ValidPattern(pattern) && (EventMay(ops, pattern, map["a" := Obj(map[])], a) <==> a == Crash)
  {
    var spec, value := Arr([Obj(map["x" := Num(1.0)])]), Obj(map[]);
    var entry := Obj(map["anything-but" := spec]);
    var pattern, event := Obj(map["a" := Arr([entry])]), map["a" := value];
    assert Same(spec.items[0], value) == Crash;
    assert NoneSame(spec.items, value) == Crash;
    OneOperator(ops, entry, "anything-but", value, a);
    OneOperator(ops, entry, "anything-but", value, No);
    assert NamedMay(ops, "anything-but", spec, value, true, a) <==> a == Crash;
    assert !NamedMay(ops, "anything-but", spec, value, true, No);
    hide NamedMay, OperatorMay, NoneSame;
    OneLeaf(ops, "a", entry, value, a);
  }

  lemma OneOperator(ops: Operators, op: Json, name: string, value: Json, a: Answer)
    requires op.Obj? && op.fields.Keys == {name}
    ensures OperatorMay(ops, op, value, true, a) <==> NamedMay(ops, name, op.fields[name], value, true, a)
  {
    assert name in op.fields;
    hide NamedMay;
  }

  /** A pattern of one field with one entry, for an event that has just this field, not an array. */
  lemma OneLeaf(ops: Operators, key: string, entry: Json, value: Json, a: Answer)
    requires entry.Obj? && !value.Arr? && key != "$or"
    requires OperatorMay(ops, entry, value, true, a) <==> a == Crash
    requires !OperatorMay(ops, entry, value, true, No)
    ensures EventMay(ops, Obj(map[key := Arr([entry])]), map[key := value], a) <==> a == Crash
  {
    var pattern := Obj(map[key := Arr([entry])]);
    assert [entry][1..] == [];
    assert LeafMay(ops, [entry], value, true, a) <==> a == Crash;
    assert KeyMay(ops, key, pattern.fields[key], map[key := value], a) <==> LeafMay(ops, [entry], value, true, a);
    hide LeafMay, KeyMay, OperatorMay;
    assert pattern.fields.Keys == {key};
    OneKey(ops, pattern, key, map[key := value], a);
  }

  lemma OneKey(ops: Operators, pattern: Json, key: string, event: map<string, Json>, a: Answer)
    requires pattern.Obj? && pattern.fields.Keys == {key}
    ensures EventMay(ops, pattern, event, a) <==> KeyMay(ops, key, pattern.fields[key], event, a)
  {
    assert key in pattern.fields;
    hide KeyMay;
  }

  // ---- What patterns mean

  /** The objects a value is or holds in arrays of arrays, from left to right. */
  function Objects(value: Json): seq<map<string, Json>>
    decreases value, 0
  {
    match value
    case Obj(event) => [event]
    case Arr(items) => ObjectsOf(items)
    case _ => []
  }

  function ObjectsOf(items: seq<Json>): seq<map<string, Json>>
    decreases items, 1
  {
    if items == [] then [] else Objects(items[0]) + ObjectsOf(items[1..])
  }

  /** A pattern is tried on objects in order, up to the first for which it does not say no. */
  ghost predicate FirstMay(ops: Operators, pattern: Json, objects: seq<map<string, Json>>, a: Answer)
    requires pattern.Obj?
  {
    if objects == [] then a == No
    else
      || (a != No && EventMay(ops, pattern, objects[0], a))
      || (EventMay(ops, pattern, objects[0], No) && FirstMay(ops, pattern, objects[1..], a))
  }

  lemma {:induction false} FirstOfBoth(ops: Operators, pattern: Json, x: seq<map<string, Json>>,
                                       y: seq<map<string, Json>>, a: Answer)
    requires pattern.Obj?
    ensures FirstMay(ops, pattern, x + y, a) <==>
            (a != No && FirstMay(ops, pattern, x, a)) || (FirstMay(ops, pattern, x, No) && FirstMay(ops, pattern, y, a))
    decreases |x|
  {
    hide EventMay;
    if x == [] {
      assert x + y == y;
    } else {
      assert (x + y)[1..] == x[1..] + y;
      FirstOfBoth(ops, pattern, x[1..], y, a);
    }
  }

  /** Matching a nested pattern is trying it on the objects the value holds, in order. */
  lemma {:induction false} NestedIsFirstObject(ops: Operators, pattern: Json, value: Json, a: Answer)
    requires pattern.Obj?
    ensures NestedMay(ops, pattern, value, a) <==> FirstMay(ops, pattern, Objects(value), a)
    decreases value, 0
  {
    match value
    case Obj(event) => assert [event][1..] == [];
    case Arr(items) => ItemsAreFirstObject(ops, pattern, items, a);
    case _ =>
  }

  lemma {:induction false} ItemsAreFirstObject(ops: Operators, pattern: Json, items: seq<Json>, a: Answer)
    requires pattern.Obj?
    ensures ItemsMay(ops, pattern, items, a) <==> FirstMay(ops, pattern, ObjectsOf(items), a)
    decreases items, 1
  {
    hide NestedMay, FirstMay, Objects;
    if items == [] {
      NoObject(ops, pattern, a);
    } else {
      NestedIsFirstObject(ops, pattern, items[0], a);
      NestedIsFirstObject(ops, pattern, items[0], No);
      ItemsAreFirstObject(ops, pattern, items[1..], a);
      FirstOfBoth(ops, pattern, Objects(items[0]), ObjectsOf(items[1..]), a);
    }
  }

  lemma NoObject(ops: Operators, pattern: Json, a: Answer)
    requires pattern.Obj?
    ensures FirstMay(ops, pattern, [], a) <==> a == No
  {
  }

  /** An absent field matches exactly by an entry whose operators all ask for it not to exist. */
  lemma {:induction false} AbsentMatchesExactly(ops: Operators, allowed: seq<Json>, value: Json, a: Answer)
    ensures LeafMay(ops, allowed, value, false, a) <==> a == Of(AsksForAbsence(allowed))
    decreases |allowed|
  {
    if allowed != [] {
      AbsentMatchesExactly(ops, allowed[1..], value, a);
      AbsentEntry(ops, allowed[0], value, a);
      AbsentEntry(ops, allowed[0], value, No);
      hide EntryMay;
    }
  }

  predicate AsksForAbsence(allowed: seq<Json>) {
    allowed != [] && (AbsenceEntry(allowed[0]) || AsksForAbsence(allowed[1..]))
  }

  predicate AbsenceEntry(entry: Json) {
    entry.Obj? && forall name <- entry.fields :: Absence(name, entry.fields[name])
  }

  predicate Absence(name: string, spec: Json) { name == "exists" && spec != Bool(true) }

  lemma NamedAbsent(ops: Operators, name: string, spec: Json, value: Json, a: Answer)
    ensures NamedMay(ops, name, spec, value, false, a) <==> a == Of(Absence(name, spec))
  {
  }

  lemma AbsentEntry(ops: Operators, entry: Json, value: Json, a: Answer)
    ensures EntryMay(ops, entry, value, false, a) <==> a == Of(AbsenceEntry(entry))
  {
    if entry.Obj? {
      forall name <- entry.fields, b: Answer
        ensures NamedMay(ops, name, entry.fields[name], value, false, b) <==> b == Of(Absence(name, entry.fields[name]))
      {
        NamedAbsent(ops, name, entry.fields[name], value, b);
      }
      if AbsenceEntry(entry) {
        assert OperatorMay(ops, entry, value, false, Yes);
        assert !OperatorMay(ops, entry, value, false, No);
        assert !OperatorMay(ops, entry, value, false, Crash);
      } else {
        var name :| name in entry.fields && !Absence(name, entry.fields[name]);
        assert OperatorMay(ops, entry, value, false, No);
        assert !OperatorMay(ops, entry, value, false, Yes);
        assert !OperatorMay(ops, entry, value, false, Crash);
      }
    }
  }

  // ---- Tame patterns

  lemma {:induction false} TameEntriesExactly(ops: Operators, allowed: seq<Json>, value: Json, present: bool)
    requires TameLeaf(allowed)
    ensures EntriesMay(ops, allowed, value, present, Yes) <==>
            exists i :: 0 <= i < |allowed| && EntryMay(ops, allowed[i], value, present, Yes)
  {
    if allowed != [] {
      var rest := allowed[1..];
      assert TameEntry(allowed[0]) && TameLeaf(rest);
      forall i | 0 <= i < |rest| ensures rest[i] == allowed[i + 1] {}
      hide EntryMay, TameEntry, TameLeaf;
      TameEntryDecided(ops, allowed[0], value, present);
      TameEntriesDecided(ops, rest, value, present);
      TameEntriesExactly(ops, rest, value, present);
      if i :| 0 <= i < |allowed| && EntryMay(ops, allowed[i], value, present, Yes) {
        if i > 0 { assert EntryMay(ops, rest[i - 1], value, present, Yes); }
      }
    }
  }

  lemma {:induction false} TameElementsExactly(ops: Operators, allowed: seq<Json>, items: seq<Json>, whole: Json)
    requires TameLeaf(allowed)
    ensures ElementsMay(ops, allowed, items, whole, Yes) <==>
            (exists i :: 0 <= i < |items| && EntriesMay(ops, allowed, items[i], true, Yes)) ||
            EntriesMay(ops, allowed, whole, true, Yes)
  {
    hide EntriesMay, TameLeaf;
    if items != [] {
      var rest := items[1..];
      forall i | 0 <= i < |rest| ensures rest[i] == items[i + 1] {}
      TameEntriesDecided(ops, allowed, items[0], true);
      TameElementsExactly(ops, allowed, rest, whole);
      if i :| 0 <= i < |items| && EntriesMay(ops, allowed, items[i], true, Yes) {
        if i > 0 { assert EntriesMay(ops, allowed, rest[i - 1], true, Yes); }
      }
    }
  }

  /** One of the values accepts one of the entries: the value itself, or an element when it is an array. */
  ghost predicate SomeEntryHolds(ops: Operators, allowed: seq<Json>, value: Json, present: bool) {
    exists i :: 0 <= i < |allowed| && EntryMay(ops, allowed[i], value, present, Yes)
  }

  /**
   Without arrays among its entries, a leaf matches an array exactly by an entry for one of its elements or by
   an operator for the array as a whole, and anything else exactly by an entry for it.
   */
  lemma LeafMatchesExactly(ops: Operators, allowed: seq<Json>, value: Json, present: bool)
    requires TameLeaf(allowed)
    ensures LeafMay(ops, allowed, value, present, Yes) <==>
      || (present && value.Arr? &&
          exists i :: 0 <= i < |value.items| && SomeEntryHolds(ops, allowed, value.items[i], true))
      || SomeEntryHolds(ops, allowed, value, present)
  {
    TameEntriesExactly(ops, allowed, value, present);
    if value.Arr? && present {
      var items := value.items;
      forall i | 0 <= i < |items|
        ensures EntriesMay(ops, allowed, items[i], true, Yes) <==> SomeEntryHolds(ops, allowed, items[i], true)
      {
        TameEntriesExactly(ops, allowed, items[i], true);
      }
      TameElementsExactly(ops, allowed, items, value);
    }
    hide EntriesMay, ElementsMay, SomeEntryHolds, TameLeaf;
  }

  /**
   q asks for no less than p: it has all of p's fields, the leaves with no more entries, nested patterns
   asking no less, and alternatives each of which asks no less than one of p's.
   */
  predicate Narrower(q: Json, p: Json)
    requires p.Obj?
    decreases p, 0
  {
    q.Obj? && forall key <- p.fields :: key in q.fields && NarrowerKey(key, q.fields[key], p.fields[key])
  }

  predicate NarrowerKey(key: string, q: Json, p: Json)
    decreases p, 1
  {
    if IsOr(key, p) then
      IsOr(key, q) && forall i :: 0 <= i < |q.items| ==> exists j :: 0 <= j < |p.items| && p.items[j].Obj? &&
                                                                    Narrower(q.items[i], p.items[j])
    else match p
      case Arr(allowed) => q.Arr? && !IsOr(key, q) && forall e <- q.items :: e in allowed
      case Obj(_) => Narrower(q, p)
      case _ => q == p
  }

  lemma {:induction false} NarrowerLeaf(ops: Operators, few: seq<Json>, many: seq<Json>, value: Json, present: bool)
    requires TameLeaf(few) && TameLeaf(many) && (forall e <- few :: e in many)
    requires LeafMay(ops, few, value, present, Yes)
    ensures LeafMay(ops, many, value, present, Yes)
  {
    LeafMatchesExactly(ops, few, value, present);
    LeafMatchesExactly(ops, many, value, present);
    hide LeafMay, EntryMay, TameLeaf;
    forall v, pr | SomeEntryHolds(ops, few, v, pr) ensures SomeEntryHolds(ops, many, v, pr) {
      var i :| 0 <= i < |few| && EntryMay(ops, few[i], v, pr, Yes);
      assert few[i] in few;
      var k :| 0 <= k < |many| && many[k] == few[i];
    }
    hide SomeEntryHolds;
  }

  /** What matches a pattern that asks for no less matches the pattern, however the two are nested. */
  lemma {:induction false} NarrowerMatchesLess(ops: Operators, q: Json, p: Json, event: map<string, Json>)
    requires p.Obj? && q.Obj? && Narrower(q, p) && Tame(q) && Tame(p)
    requires EventMay(ops, q, event, Yes)
    ensures EventMay(ops, p, event, Yes)
    decreases p, 0
  {
    forall key <- p.fields ensures KeyMay(ops, key, p.fields[key], event, Yes) {
      assert KeyMay(ops, key, q.fields[key], event, Yes);
      NarrowerKeyMatches(ops, key, q.fields[key], p.fields[key], event);
    }
  }

  lemma {:induction false} NarrowerKeyMatches(ops: Operators, key: string, q: Json, p: Json, event: map<string, Json>)
    requires NarrowerKey(key, q, p) && TameKey(key, q) && TameKey(key, p) && KeyMay(ops, key, q, event, Yes)
    ensures KeyMay(ops, key, p, event, Yes)
    decreases p, 2
  {
    if IsOr(key, p) {
      SomeAlternative(ops, q.items, event);
      var i :| 0 <= i < |q.items| && EventMay(ops, q.items[i], event, Yes);
      var j :| 0 <= j < |p.items| && p.items[j].Obj? && Narrower(q.items[i], p.items[j]);
      NarrowerMatchesLess(ops, q.items[i], p.items[j], event);
      AlternativeDecides(ops, p.items, event, j);
    } else if p.Arr? {
      NarrowerLeaf(ops, q.items, p.items, FieldOf(event, key), key in event);
    } else if p.Obj? {
      NarrowerNested(ops, q, p, FieldOf(event, key));
    }
  }

  lemma {:induction false} SomeAlternative(ops: Operators, subs: seq<Json>, event: map<string, Json>)
    requires (forall i :: 0 <= i < |subs| ==> subs[i].Obj?) && OrMay(ops, subs, event, Yes)
    ensures exists i :: 0 <= i < |subs| && EventMay(ops, subs[i], event, Yes)
  {
    hide EventMay;
    if !EventMay(ops, subs[0], event, Yes) {
      SomeAlternative(ops, subs[1..], event);
      var i :| 0 <= i < |subs[1..]| && EventMay(ops, subs[1..][i], event, Yes);
      assert subs[i + 1] == subs[1..][i];
    }
  }

  lemma {:induction false} AlternativeDecides(ops: Operators, subs: seq<Json>, event: map<string, Json>, j: nat)
    requires forall i :: 0 <= i < |subs| ==> subs[i].Obj? && Tame(subs[i])
    requires j < |subs| && EventMay(ops, subs[j], event, Yes)
    ensures OrMay(ops, subs, event, Yes)
  {
    hide EventMay, Tame;
    TameIsDecided(ops, subs[0], event);
    if j > 0 {
      assert subs[1..][j - 1] == subs[j];
      AlternativeDecides(ops, subs[1..], event, j - 1);
    }
  }

  lemma {:induction false} NarrowerNested(ops: Operators, q: Json, p: Json, value: Json)
    requires p.Obj? && q.Obj? && Narrower(q, p) && Tame(q) && Tame(p) && NestedMay(ops, q, value, Yes)
    ensures NestedMay(ops, p, value, Yes)
    decreases p, 1, value, 0
  {
    match value
    case Obj(event) => NarrowerMatchesLess(ops, q, p, event);
    case Arr(items) => NarrowerItems(ops, q, p, items);
    case _ =>
  }

  lemma {:induction false} NarrowerItems(ops: Operators, q: Json, p: Json, items: seq<Json>)
    requires p.Obj? && q.Obj? && Narrower(q, p) && Tame(q) && Tame(p) && ItemsMay(ops, q, items, Yes)
    ensures ItemsMay(ops, p, items, Yes)
    decreases p, 1, items, 1
  {
    hide NestedMay, Tame, Narrower;
    if items != [] {
      NestedDecided(ops, p, items[0]);
      if NestedMay(ops, q, items[0], Yes) {
        NarrowerNested(ops, q, p, items[0]);
      } else {
        NarrowerItems(ops, q, p, items[1..]);
      }
    }
  }
}
