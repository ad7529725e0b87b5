/**
 The enum walker (internal/gcpenumgen/main.go:134-255): the walk over a possibly cyclic graph of
 message types that collects every enum field by its JSON path, or says that it would drop some.
 */
module EnumWalk {
  import opened Common

  /** An enum type and its values in declaration order; aliases repeat a number. */
  datatype Enum = Enum(name: string, values: seq<(int, string)>)

  datatype Kind = Scalar | EnumType(enum: Enum) | MessageType(name: string)

  /** A field; for a map field, kind is that of the map's values. */
  datatype Field = Field(jsonName: string, isMap: bool, kind: Kind)

  /** The message types by full name. */
  type Graph = map<string, seq<Field>>

  datatype Info = Info(name: string, names: map<int, string>)

  datatype Result = Found(out: map<string, Info>) | Truncated(message: string, path: string)

  const MAX_DEPTH := 10

  predicate WellKnown(name: string) { "google.protobuf." <= name }

  /** Every message type a field names is in the graph. */
  ghost predicate Closed(g: Graph) {
    forall m, i :: m in g && 0 <= i < |g[m]| && g[m][i].kind.MessageType? ==> g[m][i].kind.name in g
  }

  // ---- Enums

  /** The first name of each number. */
  function NamesOf(values: seq<(int, string)>): map<int, string> {
    if values == [] then map[]
    else
      var names := NamesOf(values[..|values| - 1]);
      var v := values[|values| - 1];
      if v.0 in names then names else names[v.0 := v.1]
  }

  lemma {:induction false} FirstNameWins(values: seq<(int, string)>, i: nat)
    requires i < |values| && forall j :: 0 <= j < i ==> values[j].0 != values[i].0
    ensures values[i].0 in NamesOf(values) && NamesOf(values)[values[i].0] == values[i].1
  {
    var n := |values| - 1;
    if i < n {
      FirstNameWins(values[..n], i);
    } else {
      OnlyItsNumbers(values[..n]);
    }
  }

  lemma {:induction false} OnlyItsNumbers(values: seq<(int, string)>)
    ensures forall n :: n in NamesOf(values) ==> exists j :: 0 <= j < |values| && values[j].0 == n
  {
    if values != [] {
      var init := values[..|values| - 1];
      OnlyItsNumbers(init);
      forall n | n in NamesOf(values) ensures exists j :: 0 <= j < |values| && values[j].0 == n {
        if n in NamesOf(init) {
          var j :| 0 <= j < |init| && init[j].0 == n;
          assert values[j].0 == n;
        } else {
          assert values[|values| - 1].0 == n;
        }
      }
    }
  }

  function InfoOf(e: Enum): Info { Info(e.name, NamesOf(e.values)) }

  method EnumOf(e: Enum) returns (info: Info)
    ensures info == InfoOf(e)
  {
    var names: map<int, string> := map[];
    var i := 0;
    while i < |e.values|
      invariant 0 <= i <= |e.values|
      invariant names == NamesOf(e.values[..i])
    {
      var v := e.values[i];
      assert e.values[..i + 1][..i] == e.values[..i];
      if v.0 !in names { names := names[v.0 := v.1]; }
      i := i + 1;
    }
    assert e.values[..i] == e.values;
    info := Info(e.name, names);
  }

  // ---- Paths

  function JoinPath(path: string, seg: string): string {
    if path == "" then seg else path + "." + seg
  }

  /** The path below a field: its JSON name, and a star for the key of a map. */
  function FieldPath(path: string, f: Field): string {
    var p := JoinPath(path, f.jsonName);
    if f.isMap then JoinPath(p, "*") else p
  }

  /** The path below a chain of fields. */
  function ChainPath(path: string, p: seq<Field>): string
    decreases |p|
  {
    if p == [] then path else ChainPath(FieldPath(path, p[0]), p[1..])
  }

  /** p leads from its first field through messages outside google.protobuf to an enum field. */
  ghost predicate LeadsToEnum(g: Graph, p: seq<Field>)
    decreases |p|, 0
  {
    && p != []
    && if |p| == 1 then p[0].kind.EnumType?
       else p[0].kind.MessageType? && !WellKnown(p[0].kind.name) && EnumPath(g, p[0].kind.name, p[1..])
  }

  /** p starts at a field of message m and leads to an enum. */
  ghost predicate EnumPath(g: Graph, m: string, p: seq<Field>)
    decreases |p|, 1
  {
    m in g && p != [] && p[0] in g[m] && LeadsToEnum(g, p)
  }

  /** The messages a chain of fields enters. */
  function Entered(p: seq<Field>): seq<string> {
    if |p| <= 1 then []
    else (if p[0].kind.MessageType? then [p[0].kind.name] else []) + Entered(p[1..])
  }

  // ---- Is there an enum below a message?

  /** What the search answers, and the messages it has seen. */
  datatype Search = Search(found: bool, seen: set<string>)

  function HasEnum(g: Graph, m: string, seen: set<string>): (r: Search)
    requires Closed(g) && m in g
    ensures seen <= r.seen
    decreases |g.Keys - seen|, 0
  {
    if m in seen || WellKnown(m) then Search(false, seen)
    else
      assert |g.Keys - (seen + {m})| < |g.Keys - seen| by { Shrinks(g.Keys, seen, m); }
      HasEnumIn(g, g[m], seen + {m})
  }

  function HasEnumIn(g: Graph, fields: seq<Field>, seen: set<string>): (r: Search)
    requires Closed(g) && forall f <- fields :: f.kind.MessageType? ==> f.kind.name in g
    ensures seen <= r.seen
    decreases |g.Keys - seen|, |fields| + 1
  {
    if fields == [] then Search(false, seen)
    else match fields[0].kind
      case EnumType(_) => Search(true, seen)
      case Scalar => HasEnumIn(g, fields[1..], seen)
      case MessageType(name) =>
        var r := HasEnum(g, name, seen);
        if r.found then r
        else
          assert |g.Keys - r.seen| <= |g.Keys - seen| by {
            Shrinks(g.Keys, seen, name);
            Subsets(g.Keys - r.seen, g.Keys - seen);
          }
          HasEnumIn(g, fields[1..], r.seen)
  }

  lemma Shrinks(all: set<string>, seen: set<string>, m: string)
    ensures m in all && m !in seen ==> |all - (seen + {m})| < |all - seen|
  {
    if m in all && m !in seen {
      assert all - seen == all - (seen + {m}) + {m};
    }
  }

  lemma Subsets(a: set<string>, b: set<string>)
    requires a <= b
    ensures |a| <= |b|
  {
    assert b == a + (b - a);
  }

  /** A field is no enum, and a message outside google.protobuf that it holds is in seen. */
  predicate BarrenField(f: Field, seen: set<string>) {
    && !f.kind.EnumType?
    && (f.kind.MessageType? ==> WellKnown(f.kind.name) || f.kind.name in seen)
  }

  /** All that a search without success has added is barren: it leads only to what it has seen. */
  ghost predicate Barren(g: Graph, added: set<string>, seen: set<string>) {
    forall m <- added :: m in g && forall f <- g[m] :: BarrenField(f, seen)
  }

  lemma {:induction false} FruitlessSearch(g: Graph, m: string, seen: set<string>)
    requires Closed(g) && m in g && !HasEnum(g, m, seen).found
    ensures WellKnown(m) || m in HasEnum(g, m, seen).seen
    ensures Barren(g, HasEnum(g, m, seen).seen - seen, HasEnum(g, m, seen).seen)
    decreases |g.Keys - seen|, 0
  {
    if m !in seen && !WellKnown(m) {
      Shrinks(g.Keys, seen, m);
      FruitlessSearchIn(g, g[m], seen + {m});
    }
  }

  lemma {:induction false} FruitlessSearchIn(g: Graph, fields: seq<Field>, seen: set<string>)
    requires Closed(g) && (forall f <- fields :: f.kind.MessageType? ==> f.kind.name in g)
    requires !HasEnumIn(g, fields, seen).found
    ensures forall f <- fields :: BarrenField(f, HasEnumIn(g, fields, seen).seen)
    ensures Barren(g, HasEnumIn(g, fields, seen).seen - seen, HasEnumIn(g, fields, seen).seen)
    decreases |g.Keys - seen|, |fields| + 1
  {
    if fields != [] {
      if fields[0].kind.MessageType? {
        var name := fields[0].kind.name;
        var r := HasEnum(g, name, seen);
        FruitlessSearch(g, name, seen);
        Shrinks(g.Keys, seen, name);
        Subsets(g.Keys - r.seen, g.Keys - seen);
        FruitlessSearchIn(g, fields[1..], r.seen);
      } else {
        FruitlessSearchIn(g, fields[1..], seen);
      }
      assert forall f <- fields :: f == fields[0] || f in fields[1..];
    }
  }

  /** No path out of a closed barren set reaches an enum. */
  lemma {:induction false} BarrenLeadsNowhere(g: Graph, m: string, p: seq<Field>, seen: set<string>)
    requires Barren(g, seen, seen) && m in seen
    ensures !EnumPath(g, m, p)
    decreases |p|
  {
    if m in g && p != [] && p[0] in g[m] {
      assert BarrenField(p[0], seen);
      if |p| > 1 && p[0].kind.MessageType? && !WellKnown(p[0].kind.name) {
        BarrenLeadsNowhere(g, p[0].kind.name, p[1..], seen);
      }
    }
  }

  lemma {:induction false} FruitfulSearch(g: Graph, m: string, seen: set<string>) returns (p: seq<Field>)
    requires Closed(g) && m in g && HasEnum(g, m, seen).found
    ensures !WellKnown(m) && EnumPath(g, m, p)
    decreases |g.Keys - seen|, 0
  {
    Shrinks(g.Keys, seen, m);
    p := FruitfulSearchIn(g, g[m], seen + {m});
  }

  lemma {:induction false} FruitfulSearchIn(g: Graph, fields: seq<Field>, seen: set<string>) returns (p: seq<Field>)
    requires Closed(g) && (forall f <- fields :: f.kind.MessageType? ==> f.kind.name in g)
    requires HasEnumIn(g, fields, seen).found
    ensures p != [] && p[0] in fields && LeadsToEnum(g, p)
    decreases |g.Keys - seen|, |fields| + 1
  {
    var f := fields[0];
    if f.kind.EnumType? {
      p := [f];
    } else if f.kind.MessageType? && HasEnum(g, f.kind.name, seen).found {
      p := FruitfulSearch(g, f.kind.name, seen);
      p := [f] + p;
    } else if f.kind.MessageType? {
      var r := HasEnum(g, f.kind.name, seen);
      Shrinks(g.Keys, seen, f.kind.name);
      Subsets(g.Keys - r.seen, g.Keys - seen);
      p := FruitfulSearchIn(g, fields[1..], r.seen);
    } else {
      p := FruitfulSearchIn(g, fields[1..], seen);
    }
  }

  ghost predicate ReachesEnum(g: Graph, m: string) { exists p :: EnumPath(g, m, p) }

  /** The search answers exactly whether an enum can be reached, cycles or not. */
  lemma HasEnumExactly(g: Graph, m: string)
    requires Closed(g) && m in g
    ensures HasEnum(g, m, {}).found <==> !WellKnown(m) && ReachesEnum(g, m)
  {
    if HasEnum(g, m, {}).found {
      var p := FruitfulSearch(g, m, {});
      assert ReachesEnum(g, m);
    } else if !WellKnown(m) {
      FruitlessSearch(g, m, {});
      var seen := HasEnum(g, m, {}).seen;
      assert seen - {} == seen;
      forall p ensures !EnumPath(g, m, p) {
        BarrenLeadsNowhere(g, m, p, seen);
      }
    }
  }

  // ---- The walk

  /** One field: an enum is recorded, a message walked. */
  function WalkField(g: Graph, f: Field, path: string, stack: seq<string>, out: map<string, Info>): Result
    requires Closed(g) && (f.kind.MessageType? ==> f.kind.name in g)
    decreases MAX_DEPTH - |stack|, 1
  {
    var p := FieldPath(path, f);
    match f.kind
    case Scalar => Found(out)
    case EnumType(e) => Found(out[p := InfoOf(e)])
    case MessageType(name) => WalkChild(g, name, p, stack, out)
  }

  function WalkChild(g: Graph, m: string, path: string, stack: seq<string>, out: map<string, Info>): Result
    requires Closed(g) && m in g
    decreases MAX_DEPTH - |stack|, 0
  {
    if WellKnown(m) then Found(out)
    else if m in stack || |stack| >= MAX_DEPTH then
      if HasEnum(g, m, {}).found then Truncated(m, path) else Found(out)
    else WalkFields(g, g[m], path, stack + [m], out)
  }

  function WalkFields(g: Graph, fields: seq<Field>, path: string, stack: seq<string>, out: map<string, Info>): Result
    requires Closed(g) && forall f <- fields :: f.kind.MessageType? ==> f.kind.name in g
    decreases MAX_DEPTH - |stack|, 2, |fields|
  {
    if fields == [] then Found(out)
    else match WalkField(g, fields[0], path, stack, out)
      case Truncated(m, p) => Truncated(m, p)
      case Found(more) => WalkFields(g, fields[1..], path, stack, more)
  }

  function Walk(g: Graph, root: string): Result
    requires Closed(g) && root in g
  {
    WalkFields(g, g[root], "", [root], map[])
  }

  // ---- What is walked

  /** The messages of chain can be entered one after the other above those of stack. */
  predicate Fits(stack: seq<string>, chain: seq<string>)
    decreases |chain|
  {
    chain != [] ==> chain[0] !in stack && |stack| < MAX_DEPTH && Fits(stack + [chain[0]], chain[1..])
  }

  predicate Distinct(s: seq<string>) {
    forall i, j :: 0 <= i < j < |s| ==> s[i] != s[j]
  }

  /** Fitting is having no message twice and at most ten, the root included. */
  lemma {:induction false} FitsExactly(stack: seq<string>, chain: seq<string>)
    requires Distinct(stack) && |stack| <= MAX_DEPTH
    ensures Fits(stack, chain) <==> Distinct(stack + chain) && |stack + chain| <= MAX_DEPTH
    decreases |chain|
  {
    if chain == [] {
      assert stack + chain == stack;
    } else {
      var m := chain[0];
      assert stack + [m] + chain[1..] == stack + chain;
      if m in stack {
        var i :| 0 <= i < |stack| && stack[i] == m;
        assert (stack + chain)[i] == (stack + chain)[|stack|];
      } else if |stack| < MAX_DEPTH {
        FitsExactly(stack + [m], chain[1..]);
      }
    }
  }

  /** A walk that ends without error has room for every path to an enum. */
  lemma {:induction false} WalkedFits(g: Graph, fields: seq<Field>, path: string, stack: seq<string>,
                                      out: map<string, Info>,
                                      p: seq<Field>)
    requires Closed(g) && forall f <- fields :: f.kind.MessageType? ==> f.kind.name in g
    requires WalkFields(g, fields, path, stack, out).Found?
    requires p != [] && p[0] in fields && LeadsToEnum(g, p)
    ensures Fits(stack, Entered(p))
    decreases |p|, |fields|
  {
    var f := fields[0];
    if p[0] != f {
      WalkedFits(g, fields[1..], path, stack, WalkField(g, f, path, stack, out).out, p);
    } else if |p| > 1 {
      var name := f.kind.name;
      assert ReachesEnum(g, name) by { assert EnumPath(g, name, p[1..]); }
      HasEnumExactly(g, name);
      assert WalkChild(g, name, FieldPath(path, f), stack, out).Found?;
      WalkedFits(g, g[name], FieldPath(path, f), stack + [name], out, p[1..]);
    }
  }

  /** A walk that fails has met a path to an enum without room for it. */
  lemma {:induction false} TruncatedDoesNotFit(g: Graph, fields: seq<Field>, path: string, stack: seq<string>,
                                               out: map<string, Info>) returns (p: seq<Field>)
    requires Closed(g) && forall f <- fields :: f.kind.MessageType? ==> f.kind.name in g
    requires WalkFields(g, fields, path, stack, out).Truncated?
    ensures p != [] && p[0] in fields && LeadsToEnum(g, p) && !Fits(stack, Entered(p))
    decreases MAX_DEPTH - |stack|, |fields|
  {
    var f := fields[0];
    var r := WalkField(g, f, path, stack, out);
    if r.Found? {
      p := TruncatedDoesNotFit(g, fields[1..], path, stack, r.out);
    } else {
      var name := f.kind.name;
      HasEnumExactly(g, name);
      assert r == WalkChild(g, name, FieldPath(path, f), stack, out);
      if name in stack || |stack| >= MAX_DEPTH {
        var q :| EnumPath(g, name, q);
        p := [f] + q;
      } else {
        p := TruncatedDoesNotFit(g, g[name], FieldPath(path, f), stack + [name], out);
        p := [f] + p;
      }
    }
  }

  /**
   The walk ends without error exactly when no path to an enum enters a message twice or nests more
   than ten: the guard never cuts off an enum silently.
   */
  lemma WalkSucceedsExactly(g: Graph, root: string)
    requires Closed(g) && root in g
    ensures Walk(g, root).Found? <==>
      forall p :: EnumPath(g, root, p) ==> Distinct([root] + Entered(p)) && |[root] + Entered(p)| <= MAX_DEPTH
  {
    if Walk(g, root).Found? {
      forall p | EnumPath(g, root, p)
        ensures Distinct([root] + Entered(p)) && |[root] + Entered(p)| <= MAX_DEPTH
      {
        WalkedFits(g, g[root], "", [root], map[], p);
        FitsExactly([root], Entered(p));
      }
    } else {
      var p := TruncatedDoesNotFit(g, g[root], "", [root], map[]);
      assert EnumPath(g, root, p);
      FitsExactly([root], Entered(p));
    }
  }

  // ---- What is found

  /** Some path from these fields to an enum has this JSON path and ends in this enum. */
  ghost predicate Reaches(g: Graph, fields: seq<Field>, path: string, at: string, info: Info) {
    exists p :: PathTo(g, fields, path, at, info, p)
  }

  ghost predicate PathTo(g: Graph, fields: seq<Field>, path: string, at: string, info: Info, p: seq<Field>) {
    && p != [] && p[0] in fields && LeadsToEnum(g, p)
    && ChainPath(path, p) == at && p[|p| - 1].kind.EnumType? && InfoOf(p[|p| - 1].kind.enum) == info
  }

  /** The walk goes into this message. */
  predicate Enters(m: string, stack: seq<string>) {
    !WellKnown(m) && m !in stack && |stack| < MAX_DEPTH
  }

  lemma MessageField(g: Graph, f: Field, path: string, stack: seq<string>, out: map<string, Info>)
    requires Closed(g) && f.kind.MessageType? && f.kind.name in g
    requires WalkField(g, f, path, stack, out).Found?
    ensures WalkField(g, f, path, stack, out) ==
      if Enters(f.kind.name, stack) then WalkFields(g, g[f.kind.name], FieldPath(path, f), stack + [f.kind.name], out)
      else Found(out)
  {
    assert WalkField(g, f, path, stack, out) == WalkChild(g, f.kind.name, FieldPath(path, f), stack, out);
  }

  lemma PathThrough(g: Graph, f: Field, path: string, at: string, info: Info)
    requires f.kind.MessageType? && f.kind.name in g && !WellKnown(f.kind.name)
    requires Reaches(g, g[f.kind.name], FieldPath(path, f), at, info)
    ensures Reaches(g, [f], path, at, info)
  {
    var p :| PathTo(g, g[f.kind.name], FieldPath(path, f), at, info, p);
    var q := [f] + p;
    assert q[0] == f && q[1..] == p && q[|q| - 1] == p[|p| - 1];
    assert LeadsToEnum(g, q) by { assert EnumPath(g, f.kind.name, p); }
    assert ChainPath(path, q) == at;
    hide LeadsToEnum, ChainPath, InfoOf, FieldPath;
    assert PathTo(g, [f], path, at, info, q);
  }

  lemma MoreFields(g: Graph, some: seq<Field>, fields: seq<Field>, path: string, at: string, info: Info)
    requires (forall f <- some :: f in fields) && Reaches(g, some, path, at, info)
    ensures Reaches(g, fields, path, at, info)
  {
    var p :| PathTo(g, some, path, at, info, p);
    assert PathTo(g, fields, path, at, info, p);
  }

  lemma EnumFieldReached(g: Graph, f: Field, path: string)
    requires f.kind.EnumType?
    ensures Reaches(g, [f], path, FieldPath(path, f), InfoOf(f.kind.enum))
  {
    assert ChainPath(path, [f]) == ChainPath(FieldPath(path, f), []);
    assert PathTo(g, [f], path, FieldPath(path, f), InfoOf(f.kind.enum), [f]);
  }

  /** Every record of the walk was there before or is of an enum some path reaches. */
  lemma {:induction false} FoundIsReached(g: Graph, fields: seq<Field>, path: string, stack: seq<string>,
                                          out: map<string, Info>, at: string)
    requires Closed(g) && forall f <- fields :: f.kind.MessageType? ==> f.kind.name in g
    requires WalkFields(g, fields, path, stack, out).Found?
    requires at in WalkFields(g, fields, path, stack, out).out
    ensures var info := WalkFields(g, fields, path, stack, out).out[at];
      (at in out && out[at] == info) || Reaches(g, fields, path, at, info)
    decreases MAX_DEPTH - |stack|, |fields|
  {
    hide Reaches;
    if fields != [] {
      var f := fields[0];
      var more := WalkField(g, f, path, stack, out).out;
      var info := WalkFields(g, fields, path, stack, out).out[at];
      FoundIsReached(g, fields[1..], path, stack, more, at);
      if Reaches(g, fields[1..], path, at, info) {
        MoreFields(g, fields[1..], fields, path, at, info);
      } else {
        FieldIsReached(g, f, path, stack, out, at);
        if Reaches(g, [f], path, at, info) { MoreFields(g, [f], fields, path, at, info); }
      }
    }
  }

  lemma {:induction false} FieldIsReached(g: Graph, f: Field, path: string, stack: seq<string>,
                                          out: map<string, Info>, at: string)
    requires Closed(g) && (f.kind.MessageType? ==> f.kind.name in g)
    requires WalkField(g, f, path, stack, out).Found?
    requires at in WalkField(g, f, path, stack, out).out
    ensures var info := WalkField(g, f, path, stack, out).out[at];
      (at in out && out[at] == info) || Reaches(g, [f], path, at, info)
    decreases MAX_DEPTH - |stack|, 0
  {
    hide Reaches;
    if f.kind.EnumType? {
      EnumFieldReached(g, f, path);
    } else if f.kind.MessageType? {
      MessageField(g, f, path, stack, out);
      var name := f.kind.name;
      if Enters(name, stack) {
        var info := WalkField(g, f, path, stack, out).out[at];
        FoundIsReached(g, g[name], FieldPath(path, f), stack + [name], out, at);
        if Reaches(g, g[name], FieldPath(path, f), at, info) { PathThrough(g, f, path, at, info); }
      }
    }
  }

  /** No record is dropped again. */
  lemma {:induction false} RecordsStay(g: Graph, fields: seq<Field>, path: string, stack: seq<string>,
                                       out: map<string, Info>)
    requires Closed(g) && forall f <- fields :: f.kind.MessageType? ==> f.kind.name in g
    requires WalkFields(g, fields, path, stack, out).Found?
    ensures out.Keys <= WalkFields(g, fields, path, stack, out).out.Keys
    decreases MAX_DEPTH - |stack|, |fields|
  {
    if fields != [] {
      var f := fields[0];
      RecordsStay(g, fields[1..], path, stack, WalkField(g, f, path, stack, out).out);
      if f.kind.MessageType? {
        MessageField(g, f, path, stack, out);
        if Enters(f.kind.name, stack) {
          RecordsStay(g, g[f.kind.name], FieldPath(path, f), stack + [f.kind.name], out);
        }
      }
    }
  }

  /** Every path to an enum has its record. */
  lemma {:induction false} ReachedIsFound(g: Graph, fields: seq<Field>, path: string, stack: seq<string>,
                                          out: map<string, Info>, p: seq<Field>)
    requires Closed(g) && forall f <- fields :: f.kind.MessageType? ==> f.kind.name in g
    requires WalkFields(g, fields, path, stack, out).Found?
    requires p != [] && p[0] in fields && LeadsToEnum(g, p)
    ensures ChainPath(path, p) in WalkFields(g, fields, path, stack, out).out
    decreases |p|, |fields|
  {
    var f := fields[0];
    var more := WalkField(g, f, path, stack, out).out;
    if p[0] != f {
      ReachedIsFound(g, fields[1..], path, stack, more, p);
    } else {
      RecordsStay(g, fields[1..], path, stack, more);
      assert ChainPath(path, p) == ChainPath(FieldPath(path, f), p[1..]);
      if |p| > 1 {
        var name := f.kind.name;
        MessageField(g, f, path, stack, out);
        WalkedFits(g, fields, path, stack, out, p);
        ReachedIsFound(g, g[name], FieldPath(path, f), stack + [name], out, p[1..]);
      }
    }
  }

  /**
   When the walk ends without error its keys are exactly the JSON paths of the chains of fields that lead
   to an enum outside google.protobuf, each with an enum found there.
   */
  lemma WalkFindsExactly(g: Graph, root: string, at: string)
    requires Closed(g) && root in g && Walk(g, root).Found?
    ensures at in Walk(g, root).out <==> exists p :: EnumPath(g, root, p) && ChainPath("", p) == at
    ensures at in Walk(g, root).out ==> Reaches(g, g[root], "", at, Walk(g, root).out[at])
  {
    if at in Walk(g, root).out {
      FoundIsReached(g, g[root], "", [root], map[], at);
      var p :| PathTo(g, g[root], "", at, Walk(g, root).out[at], p);
      assert EnumPath(g, root, p) && ChainPath("", p) == at;
    }
    forall p | EnumPath(g, root, p) && ChainPath("", p) == at ensures at in Walk(g, root).out {
      ReachedIsFound(g, g[root], "", [root], map[], p);
    }
  }

  // ---- What errors and records say

  /** Where p, a path to an enum, meets message m at a JSON path and has no room to enter it. */
  ghost predicate StopsAt(g: Graph, fields: seq<Field>, path: string, stack: seq<string>, m: string, at: string,
                          p: seq<Field>, k: nat) {
    && 0 < k < |p| && p[0] in fields && LeadsToEnum(g, p)
    && p[k - 1].kind == MessageType(m) && ChainPath(path, p[..k]) == at
    && Fits(stack, Entered(p[..k])) && !Fits(stack, Entered(p[..k]) + [m])
  }

  lemma EnteredMore(f: Field, name: string, p: seq<Field>, k: nat)
    requires f.kind == MessageType(name) && 0 < k <= |p|
    ensures ([f] + p)[..k + 1] == [f] + p[..k]
    ensures Entered([f] + p[..k]) == [name] + Entered(p[..k])
    ensures forall path :: ChainPath(path, [f] + p[..k]) == ChainPath(FieldPath(path, f), p[..k])
  {
    assert ([f] + p[..k])[1..] == p[..k];
  }

  lemma FitsBelow(stack: seq<string>, name: string, chain: seq<string>, m: string)
    requires name !in stack && |stack| < MAX_DEPTH
    ensures Fits(stack, [name] + chain) <==> Fits(stack + [name], chain)
    ensures Fits(stack, [name] + chain + [m]) <==> Fits(stack + [name], chain + [m])
  {
    assert ([name] + chain)[1..] == chain && ([name] + chain + [m])[1..] == chain + [m];
  }

  lemma {:induction false} TruncatedAt(g: Graph, fields: seq<Field>, path: string, stack: seq<string>,
                                       out: map<string, Info>)
    returns (p: seq<Field>, k: nat)
    requires Closed(g) && forall f <- fields :: f.kind.MessageType? ==> f.kind.name in g
    requires WalkFields(g, fields, path, stack, out).Truncated?
    ensures var r := WalkFields(g, fields, path, stack, out); StopsAt(g, fields, path, stack, r.message, r.path, p, k)
    decreases MAX_DEPTH - |stack|, |fields|
  {
    var f := fields[0];
    var r := WalkField(g, f, path, stack, out);
    if r.Found? {
      p, k := TruncatedAt(g, fields[1..], path, stack, r.out);
    } else {
      var name := f.kind.name;
      HasEnumExactly(g, name);
      assert r == WalkChild(g, name, FieldPath(path, f), stack, out);
      if name in stack || |stack| >= MAX_DEPTH {
        p := StopsHere(g, f, path, stack);
        k := 1;
      } else {
        var below := FieldPath(path, f);
        p, k := TruncatedAt(g, g[name], below, stack + [name], out);
        StopsBelow(g, f, path, stack, r.message, r.path, p, k);
        p, k := [f] + p, k + 1;
      }
      hide LeadsToEnum, Entered, Fits, ChainPath, WalkField, WalkChild, HasEnum;
    }
  }

  lemma StopsHere(g: Graph, f: Field, path: string, stack: seq<string>) returns (p: seq<Field>)
    requires f.kind.MessageType? && !WellKnown(f.kind.name) && ReachesEnum(g, f.kind.name)
    requires f.kind.name in stack || |stack| >= MAX_DEPTH
    ensures StopsAt(g, [f], path, stack, f.kind.name, FieldPath(path, f), p, 1)
  {
    var q :| EnumPath(g, f.kind.name, q);
    p := [f] + q;
    assert p[1..] == q && p[..1] == [f] && [f][1..] == [];
    assert Entered([f]) == [] && [] + [f.kind.name] == [f.kind.name];
  }

  lemma {:induction false} StopsBelow(g: Graph, f: Field, path: string, stack: seq<string>, m: string, at: string,
                                      p: seq<Field>, k: nat)
    requires f.kind.MessageType? && f.kind.name in g && !WellKnown(f.kind.name)
    requires f.kind.name !in stack && |stack| < MAX_DEPTH
    requires StopsAt(g, g[f.kind.name], FieldPath(path, f), stack + [f.kind.name], m, at, p, k)
    ensures StopsAt(g, [f], path, stack, m, at, [f] + p, k + 1)
  {
    var name := f.kind.name;
    EnteredMore(f, name, p, k);
    FitsBelow(stack, name, Entered(p[..k]), m);
    assert ([f] + p)[1..] == p && ([f] + p)[k] == p[k - 1];
    assert Entered(([f] + p)[..k + 1]) + [m] == [name] + Entered(p[..k]) + [m];
    hide Entered, Fits, ChainPath, FieldPath;
    var q := [f] + p;
    assert q[..k + 1] == [f] + p[..k];
    assert q[0] in [f] && LeadsToEnum(g, q);
    assert ChainPath(path, q[..k + 1]) == at;
    assert Fits(stack, Entered(q[..k + 1]));
    assert !Fits(stack, Entered(q[..k + 1]) + [m]);
  }

  /**
   The error of a walk names a message and the place it was met at: on the way to an enum, with room for all
   messages before it and none for this one.
   */
  lemma TruncationIsNamed(g: Graph, root: string)
    requires Closed(g) && root in g && Walk(g, root).Truncated?
    ensures exists p, k ::
      EnumPath(g, root, p) && StopsAt(g, g[root], "", [root], Walk(g, root).message, Walk(g, root).path, p, k)
  {
    var p, k := TruncatedAt(g, g[root], "", [root], map[]);
    assert EnumPath(g, root, p);
  }

  /** The segments a chain of fields adds to a path. */
  function Segments(p: seq<Field>): seq<string> {
    if p == [] then [] else [p[0].jsonName] + (if p[0].isMap then ["*"] else []) + Segments(p[1..])
  }

  function Dotted(segments: seq<string>): string {
    if segments == [] then ""
    else if |segments| == 1 then segments[0]
    else segments[0] + "." + Dotted(segments[1..])
  }

  lemma {:induction false} DottedBehind(path: string, p: seq<Field>)
    requires path != "" && forall f <- p :: f.jsonName != ""
    ensures ChainPath(path, p) == Dotted([path] + Segments(p))
    decreases |p|
  {
    if p == [] {
      assert [path] + [] == [path];
    } else {
      var f, rest := p[0], Segments(p[1..]);
      assert forall x <- p[1..] :: x in p;
      DottedBehind(FieldPath(path, f), p[1..]);
      OneDot(path, f.jsonName, (if f.isMap then ["*"] else []) + rest);
      assert [path] + Segments(p) == [path, f.jsonName] + ((if f.isMap then ["*"] else []) + rest);
      if f.isMap {
        OneDot(path + "." + f.jsonName, "*", rest);
        assert [path + "." + f.jsonName] + (["*"] + rest) == [path + "." + f.jsonName, "*"] + rest;
      } else {
        assert [] + rest == rest;
      }
    }
    hide ChainPath, Segments;
  }

  lemma OneDot(a: string, b: string, rest: seq<string>)
    ensures Dotted([a, b] + rest) == Dotted([a + "." + b] + rest)
  {
    assert ([a, b] + rest)[1..] == [b] + rest && ([a + "." + b] + rest)[1..] == rest;
    if rest != [] {
      assert ([b] + rest)[1..] == rest;
      assert a + "." + (b + "." + Dotted(rest)) == a + "." + b + "." + Dotted(rest);
    } else {
      assert [b] + rest == [b] && [a + "." + b] + rest == [a + "." + b];
    }
  }

  /** The JSON path of a chain of fields is their names with dots between them, and a star behind each map field. */
  lemma {:induction false} PathIsDotted(p: seq<Field>)
    requires forall f <- p :: f.jsonName != ""
    ensures ChainPath("", p) == Dotted(Segments(p))
  {
    if p != [] {
      var f, rest := p[0], Segments(p[1..]);
      assert forall x <- p[1..] :: x in p;
      DottedBehind(FieldPath("", f), p[1..]);
      if f.isMap {
        OneDot(f.jsonName, "*", rest);
        assert Segments(p) == [f.jsonName, "*"] + rest;
      } else {
        assert Segments(p) == [f.jsonName] + rest;
      }
    }
    hide ChainPath;
  }

  /** i is the first value of this number. */
  predicate IsFirst(values: seq<(int, string)>, n: int, i: nat) {
    i < |values| && values[i].0 == n && forall j :: 0 <= j < i ==> values[j].0 != n
  }

  lemma {:induction false} SomeFirst(values: seq<(int, string)>, n: int, i: nat) returns (k: nat)
    requires i < |values| && values[i].0 == n
    ensures IsFirst(values, n, k)
    decreases i
  {
    if j :| 0 <= j < i && values[j].0 == n { k := SomeFirst(values, n, j); } else { k := i; }
  }

  /** What is recorded for an enum: its name, and the first of the names of each of its numbers. */
  lemma {:induction false} EnumNamesExactly(e: Enum, n: int)
    ensures InfoOf(e).name == e.name
    ensures n in InfoOf(e).names <==> exists i :: 0 <= i < |e.values| && e.values[i].0 == n
    ensures n in InfoOf(e).names ==> exists i: nat :: IsFirst(e.values, n, i) && InfoOf(e).names[n] == e.values[i].1
  {
    hide NamesOf;
    OnlyItsNumbers(e.values);
    if i :| 0 <= i < |e.values| && e.values[i].0 == n {
      var k := SomeFirst(e.values, n, i);
      FirstNameWins(e.values, k);
    }
  }

  // ---- The walker

  /** The set of messages a search has seen, shared by all its calls. */
  class Seen {
    var names: set<string>

    constructor ()
      ensures names == {}
    {
      names := {};
    }
  }

  method SearchEnum(g: Graph, m: string, seen: Seen) returns (found: bool)
    requires Closed(g) && m in g
    modifies seen
    ensures Search(found, seen.names) == HasEnum(g, m, old(seen.names))
    decreases |g.Keys - seen.names|
  {
    if m in seen.names || WellKnown(m) { return false; }
    Shrinks(g.Keys, seen.names, m);
    seen.names := seen.names + {m};
    ghost var before := seen.names;
    var fields := g[m];
    var i := 0;
    while i < |fields|
      invariant 0 <= i <= |fields|
      invariant seen.names >= before
      invariant HasEnumIn(g, fields, before) == HasEnumIn(g, fields[i..], seen.names)
    {
      var f := fields[i];
      assert fields[i..][1..] == fields[i + 1..];
      if f.kind.EnumType? { return true; }
      if f.kind.MessageType? {
        Subsets(g.Keys - seen.names, g.Keys - before);
        var below := SearchEnum(g, f.kind.name, seen);
        if below { return true; }
      }
      i := i + 1;
    }
    return false;
  }

  /** The walker of one root: out is filled in place. */
  class Walker {
    const g: Graph
    var out: map<string, Info>

    constructor (g: Graph)
      ensures this.g == g && out == map[]
    {
      this.g := g;
      out := map[];
    }

    /** What a method did, against what the walk from the earlier records gives. */
    ghost predicate Follows(r: Result, err: Option<(string, string)>)
      reads this
    {
      match r
      case Found(records) => err == None && out == records
      case Truncated(m, path) => err == Some((m, path))
    }

    method WalkMessage(m: string, path: string, stack: seq<string>) returns (err: Option<(string, string)>)
      requires Closed(g) && m in g
      modifies this
      ensures Follows(WalkFields(g, g[m], path, stack, old(out)), err)
      decreases MAX_DEPTH - |stack|, 2
    {
      var fields := g[m];
      var i := 0;
      while i < |fields|
        invariant 0 <= i <= |fields|
        invariant WalkFields(g, fields, path, stack, old(out)) == WalkFields(g, fields[i..], path, stack, out)
      {
        assert fields[i..][1..] == fields[i + 1..];
        err := VisitField(fields[i], path, stack);
        if err.Some? { return; }
        i := i + 1;
      }
      err := None;
    }

    method VisitField(f: Field, path: string, stack: seq<string>) returns (err: Option<(string, string)>)
      requires Closed(g) && (f.kind.MessageType? ==> f.kind.name in g)
      modifies this
      ensures Follows(WalkField(g, f, path, stack, old(out)), err)
      decreases MAX_DEPTH - |stack|, 1
    {
      var p := JoinPath(path, f.jsonName);
      if f.isMap { p := JoinPath(p, "*"); }
      if f.kind.EnumType? {
        var info := EnumOf(f.kind.enum);
        out := out[p := info];
        return None;
      }
      if f.kind.MessageType? {
        err := VisitChild(f.kind.name, p, stack);
        return;
      }
      return None;
    }

    method VisitChild(m: string, path: string, stack: seq<string>) returns (err: Option<(string, string)>)
      requires Closed(g) && m in g
      modifies this
      ensures Follows(WalkChild(g, m, path, stack, old(out)), err)
      decreases MAX_DEPTH - |stack|, 0
    {
      if WellKnown(m) { return None; }
      if m in stack || |stack| >= MAX_DEPTH {
        var seen := new Seen();
        var found := SearchEnum(g, m, seen);
        if found { return Some((m, path)); }
        return None;
      }
      err := WalkMessage(m, path, stack + [m]);
    }
  }

  method WalkRoot(g: Graph, root: string) returns (r: Result)
    requires Closed(g) && root in g
    ensures r == Walk(g, root)
  {
    var walker := new Walker(g);
    var err := walker.WalkMessage(root, "", [root]);
    r := if err.Some? then Truncated(err.value.0, err.value.1) else Found(walker.out);
  }
}
