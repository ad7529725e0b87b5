/**
 The size a host method's result is charged for (internal/vtl/limits.go:92-125): a walk with an explicit
 stack that counts shared parts each time and gives up past a limit.
 */
module Sizes {
  import opened Common
  import opened Limits
  import opened Values

  /** The bytes of all the keys of a map. */
  function KeyBytes(keys: seq<string>): nat {
    if keys == [] then 0 else KeyBytes(keys[..|keys| - 1]) + |keys[|keys| - 1]|
  }

  /** What a value is counted for, without what it holds. */
  function Own(h: Heap, v: Value): nat {
    match v
    case Str(s) => |s|
    case ListRef(a) => |ListAt(h, a)| * SLOT_BYTES
    case MapRef(a) => |KeysAt(h, a)| * SLOT_BYTES + KeyBytes(KeysAt(h, a))
    case _ => SLOT_BYTES
  }

  /** A value's size with all it holds, counted as often as it is reached; None when it nests deeper than depth. */
  function SizeTo(h: Heap, v: Value, depth: nat): Option<nat>
    decreases depth, 0
  {
    if depth == 0 then None
    else match SizesTo(h, Children(h, v), depth - 1)
      case None => None
      case Some(n) => Some(Own(h, v) + n)
  }

  function SizesTo(h: Heap, vs: seq<Value>, depth: nat): Option<nat>
    decreases depth, 1, |vs|
  {
    if vs == [] then Some(0)
    else match (SizesTo(h, vs[..|vs| - 1], depth), SizeTo(h, vs[|vs| - 1], depth))
      case (Some(m), Some(n)) => Some(m + n)
      case _ => None
  }

  /** The value has this size; one that contains itself has none. */
  ghost predicate HasSize(h: Heap, v: Value, n: nat) { exists d: nat :: SizeTo(h, v, d) == Some(n) }

  ghost predicate HaveSize(h: Heap, vs: seq<Value>, n: nat) { exists d: nat :: SizesTo(h, vs, d) == Some(n) }

  lemma {:induction false} DeeperIsSame(h: Heap, v: Value, d: nat, e: nat)
    requires d <= e && SizeTo(h, v, d).Some?
    ensures SizeTo(h, v, e) == SizeTo(h, v, d)
    decreases d, 0
  {
    hide Own;
    DeeperAreSame(h, Children(h, v), d - 1, e - 1);
  }

  lemma {:induction false} DeeperAreSame(h: Heap, vs: seq<Value>, d: nat, e: nat)
    requires d <= e && SizesTo(h, vs, d).Some?
    ensures SizesTo(h, vs, e) == SizesTo(h, vs, d)
    decreases d, 1, |vs|
  {
    hide SizeTo;
    if vs != [] {
      DeeperAreSame(h, vs[..|vs| - 1], d, e);
      DeeperIsSame(h, vs[|vs| - 1], d, e);
    }
  }

  /** A value has at most one size. */
  lemma SizeIsUnique(h: Heap, v: Value, m: nat, n: nat)
    requires HasSize(h, v, m) && HasSize(h, v, n)
    ensures m == n
  {
    hide SizeTo;
    var d: nat :| SizeTo(h, v, d) == Some(m);
    var e: nat :| SizeTo(h, v, e) == Some(n);
    DeeperIsSame(h, v, d, d + e);
    DeeperIsSame(h, v, e, d + e);
  }

  lemma {:induction false} SizesConcat(h: Heap, a: seq<Value>, b: seq<Value>, d: nat)
    ensures SizesTo(h, a + b, d) ==
      match (SizesTo(h, a, d), SizesTo(h, b, d)) case (Some(m), Some(n)) => Some(m + n) case _ => None
    decreases |b|
  {
    hide SizeTo;
    if b == [] {
      assert a + b == a;
    } else {
      var n := |b| - 1;
      assert (a + b)[..|a + b| - 1] == a + b[..n];
      SizesConcat(h, a, b[..n], d);
    }
  }

  lemma {:induction false} PopsTo(h: Heap, rest: seq<Value>, v: Value, d: nat, n: nat)
    requires SizesTo(h, rest + [v], d) == Some(n)
    ensures n >= Own(h, v) && SizesTo(h, rest + Children(h, v), d) == Some(n - Own(h, v))
  {
    hide Own, SizeTo, SizesTo, Children;
    Unpack(h, rest, v, d);
    DeeperAreSame(h, Children(h, v), d - 1, d);
    SizesConcat(h, rest, Children(h, v), d);
  }

  lemma {:induction false} PushesTo(h: Heap, rest: seq<Value>, v: Value, d: nat, n: nat)
    requires SizesTo(h, rest + Children(h, v), d) == Some(n)
    ensures SizesTo(h, rest + [v], d + 1) == Some(n + Own(h, v))
  {
    hide Own, SizeTo, SizesTo, Children;
    SizesConcat(h, rest, Children(h, v), d);
    DeeperAreSame(h, rest, d, d + 1);
    Unpack(h, rest, v, d + 1);
  }

  /** Taking a value off the stack and pushing what it holds leaves its own size to be counted. */
  lemma PopSize(h: Heap, rest: seq<Value>, v: Value, n: nat)
    ensures HaveSize(h, rest + [v], n) <==> n >= Own(h, v) && HaveSize(h, rest + Children(h, v), n - Own(h, v))
  {
    hide Own, SizesTo, Children;
    if HaveSize(h, rest + [v], n) {
      var d: nat :| SizesTo(h, rest + [v], d) == Some(n);
      PopsTo(h, rest, v, d, n);
    }
    if n >= Own(h, v) && HaveSize(h, rest + Children(h, v), n - Own(h, v)) {
      var d: nat :| SizesTo(h, rest + Children(h, v), d) == Some(n - Own(h, v));
      PushesTo(h, rest, v, d, n - Own(h, v));
    }
  }

  lemma Unpack(h: Heap, rest: seq<Value>, v: Value, d: nat)
    ensures SizesTo(h, rest + [v], d) ==
      if d == 0 then None
      else match (SizesTo(h, rest, d), SizesTo(h, Children(h, v), d - 1))
        case (Some(m), Some(n)) => Some(m + (Own(h, v) + n))
        case _ => None
  {
    hide Own;
    assert (rest + [v])[..|rest|] == rest;
  }

  lemma OneSize(h: Heap, v: Value, n: nat)
    ensures HasSize(h, v, n) <==> HaveSize(h, [v], n)
  {
    hide SizeTo;
    forall d: nat ensures SizesTo(h, [v], d) == SizeTo(h, v, d) {
      assert [v][..0] == [];
    }
    if HasSize(h, v, n) {
      var d: nat :| SizeTo(h, v, d) == Some(n);
      assert SizesTo(h, [v], d) == Some(n);
    }
    if HaveSize(h, [v], n) {
      var d: nat :| SizesTo(h, [v], d) == Some(n);
      assert SizeTo(h, v, d) == Some(n);
    }
  }

  lemma EmptySize(h: Heap, n: nat)
    ensures HaveSize(h, [], n) <==> n == 0
  {
    assert SizesTo(h, [], 0) == Some(0);
  }

  // ---- The size of what there is

  function Sum(ns: seq<nat>): nat { if ns == [] then 0 else Sum(ns[..|ns| - 1]) + ns[|ns| - 1] }

  function Lengths(keys: seq<string>): nat { if keys == [] then 0 else |keys[0]| + Lengths(keys[1..]) }

  lemma {:induction false} LengthsAdd(a: seq<string>, k: string)
    ensures Lengths(a + [k]) == Lengths(a) + |k|
  {
    if a == [] {
      assert [] + [k] == [k];
    } else {
      assert (a + [k])[1..] == a[1..] + [k];
      LengthsAdd(a[1..], k);
    }
  }

  lemma {:induction false} KeyBytesAre(keys: seq<string>)
    ensures KeyBytes(keys) == Lengths(keys)
  {
    if keys != [] {
      var n := |keys| - 1;
      KeyBytesAre(keys[..n]);
      LengthsAdd(keys[..n], keys[n]);
      assert keys[..n] + [keys[n]] == keys;
    }
  }

  lemma {:induction false} SizesSum(h: Heap, vs: seq<Value>, ns: seq<nat>) returns (d: nat)
    requires |vs| == |ns| && forall i :: 0 <= i < |vs| ==> HasSize(h, vs[i], ns[i])
    ensures SizesTo(h, vs, d) == Some(Sum(ns))
  {
    hide SizeTo;
    if vs == [] {
      d := 0;
    } else {
      var n := |vs| - 1;
      var some := SizesSum(h, vs[..n], ns[..n]);
      var e: nat :| SizeTo(h, vs[n], e) == Some(ns[n]);
      d := some + e;
      DeeperAreSame(h, vs[..n], some, d);
      DeeperIsSame(h, vs[n], e, d);
    }
  }

  /** A text counts its bytes, any other value without parts a slot. */
  lemma PlainSizes(h: Heap, v: Value)
    requires !v.ListRef? && !v.MapRef?
    ensures HasSize(h, v, if v.Str? then |v.s| else 64)
  {
    assert SizesTo(h, [], 0) == Some(0);
    assert SizeTo(h, v, 1) == Some(if v.Str? then |v.s| else 64);
  }

  /** A list counts a slot an item, and the sizes of the items. */
  lemma {:induction false} ListSize(h: Heap, a: nat, ns: seq<nat>)
    requires a < |h| && h[a].ListCell? && |h[a].items| == |ns|
    requires forall i :: 0 <= i < |ns| ==> HasSize(h, h[a].items[i], ns[i])
    ensures HasSize(h, ListRef(a), 64 * |ns| + Sum(ns))
  {
    hide HasSize;
    var d := SizesSum(h, Children(h, ListRef(a)), ns);
    Holding(h, ListRef(a), Sum(ns), d);
    hide SizesTo, Sum;
  }

  /** A map counts a slot an entry, the keys, and the sizes of the values. */
  lemma {:induction false} MapSize(h: Heap, a: nat, ns: seq<nat>)
    requires a < |h| && h[a].MapCell? && |h[a].keys| == |ns| && forall k <- h[a].keys :: k in h[a].vals
    requires forall i :: 0 <= i < |ns| ==> HasSize(h, h[a].vals[h[a].keys[i]], ns[i])
    ensures HasSize(h, MapRef(a), 64 * |ns| + Lengths(h[a].keys) + Sum(ns))
  {
    hide HasSize, SizesTo, Sum, KeyBytes, Lengths;
    var kids := Children(h, MapRef(a));
    forall i | 0 <= i < |ns| ensures HasSize(h, kids[i], ns[i]) { assert h[a].keys[i] in h[a].keys; }
    var d := SizesSum(h, kids, ns);
    KeyBytesAre(h[a].keys);
    Holding(h, MapRef(a), Sum(ns), d);
  }

  lemma Holding(h: Heap, v: Value, n: nat, d: nat)
    requires SizesTo(h, Children(h, v), d) == Some(n)
    ensures HasSize(h, v, Own(h, v) + n)
  {
    assert SizeTo(h, v, d + 1) == Some(Own(h, v) + n);
  }

  /** A value is counted at least one slot for each value it holds. */
  lemma OwnPaysForChildren(h: Heap, v: Value)
    ensures |Children(h, v)| * SLOT_BYTES <= Own(h, v)
  {
  }

  /**
   sizeOf gives the size of the value when that is within the limit, and otherwise, or when the value
   contains itself, something larger than the limit. The cap on visits never cuts a count short.
   */
  method SizeOf(h: Heap, v: Value, limit: nat) returns (total: nat)
    requires limit <= MAX_ALLOC_BYTES
    ensures total <= limit ==> HasSize(h, v, total)
    ensures total > limit ==> forall n: nat :: HasSize(h, v, n) ==> n > limit
  {
    hide Own, HasSize, Leaves, Children;
    total := 0;
    var stack, visits := [v], 0;
    forall n: nat ensures HasSize(h, v, n) <==> Leaves(h, stack, total, n) { LeavesAtStart(h, v, n); }
    while stack != [] && total <= limit && visits <= MAX_ALLOC_BYTES / SLOT_BYTES
      invariant (visits + |stack| - 1) * SLOT_BYTES <= total
      invariant forall n: nat :: HasSize(h, v, n) <==> Leaves(h, stack, total, n)
      decreases MAX_ALLOC_BYTES / SLOT_BYTES + 1 - visits
    {
      var cur, rest := stack[|stack| - 1], stack[..|stack| - 1];
      assert stack == rest + [cur];
      visits := visits + 1;
      OwnPaysForChildren(h, cur);
      ghost var before := total;
      total := total + Own(h, cur);
      stack := rest + Children(h, cur);
      forall n: nat ensures Leaves(h, rest + [cur], before, n) <==> Leaves(h, stack, total, n) {
        LeavesPopped(h, rest, cur, before, n);
      }
    }
    LeavesAtEnd(h, stack, total);
  }

  /** With total counted and the stack still to be counted, the size in all is n. */
  ghost predicate Leaves(h: Heap, stack: seq<Value>, total: nat, n: nat) {
    n >= total && HaveSize(h, stack, n - total)
  }

  lemma LeavesAtStart(h: Heap, v: Value, n: nat)
    ensures HasSize(h, v, n) <==> Leaves(h, [v], 0, n)
  {
    hide HasSize, HaveSize;
    OneSize(h, v, n);
  }

  lemma LeavesPopped(h: Heap, rest: seq<Value>, v: Value, total: nat, n: nat)
    ensures Leaves(h, rest + [v], total, n) <==> Leaves(h, rest + Children(h, v), total + Own(h, v), n)
  {
    hide Own, HaveSize, Children;
    if n >= total { PopSize(h, rest, v, n - total); }
  }

  lemma LeavesAtEnd(h: Heap, stack: seq<Value>, total: nat)
    ensures stack == [] ==> Leaves(h, stack, total, total)
    ensures forall n: nat :: Leaves(h, stack, total, n) ==> n >= total
  {
    hide HaveSize;
    EmptySize(h, 0);
  }
}
