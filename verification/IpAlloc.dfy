/**
 Handing out addresses of a subnet (internal/ipalloc/ipalloc.go): the lowest free one, chosen and stored
 under the subnet's lock.
 */
module IpAlloc {
  import opened Common
  import opened Ipv4
  import Scan

  const RESERVED_LOW_ADDRS: nat := 4

  /** What the library parses of a subnet range: an aligned IPv4 block, or nothing of use. */
  type Cidr = Option<Block>

  ghost predicate Parsed(c: Cidr) { c.Some? ==> IsBlock(c.value) }

  /** The first and the last assignable address; None when the range is too small for one. */
  function HostRange(c: Cidr): (r: Option<(nat, nat)>)
    requires Parsed(c)
  {
    if c.None? then None
    else
      var net := c.value.net;
      var broadcast := net + (Size(c.value) - 1);
      if broadcast - net <= RESERVED_LOW_ADDRS then None else Some((net + RESERVED_LOW_ADDRS, broadcast - 1))
  }

  /** An address of the range that is neither one of the reserved low ones nor the broadcast address. */
  predicate UsableAddress(c: Cidr, v: nat)
    requires Parsed(c)
  {
    var r := HostRange(c);
    r.Some? && r.value.0 <= v <= r.value.1
  }

  // ---- Addresses as texts

  function Part(a: nat, rest: string): string { Scan.Digits(a) + "." + rest }

  /** The dotted form of an address. */
  function Dotted(v: nat): (s: string)
    ensures s != ""
  {
    Part(v / 0x100_0000, Part(v / 0x1_0000 % 256, Part(v / 256 % 256, Scan.Digits(v % 256))))
  }

  lemma {:induction false} DigitsThenDot(x: string, rest: string)
    requires Scan.AllDigits(x)
    ensures Scan.DigitLen(x + "." + rest) == |x|
  {
    if x != "" {
      DigitsThenDot(x[1..], rest);
      assert (x + "." + rest)[1..] == x[1..] + "." + rest;
    }
  }

  lemma PartIsInjective(a: nat, s: string, b: nat, t: string)
    requires Part(a, s) == Part(b, t)
    ensures a == b && s == t
  {
    var x, y, whole := Scan.Digits(a), Scan.Digits(b), Part(a, s);
    hide Scan.Digits;
    DigitsThenDot(x, s);
    DigitsThenDot(y, t);
    assert x == whole[..|x|] == y;
    assert s == whole[|x| + 1..] == t;
  }

  /** Different addresses have different texts. */
  lemma DottedIsInjective(v: nat, w: nat)
    requires Dotted(v) == Dotted(w)
    ensures v == w
  {
    hide Part, Scan.Digits;
    var sv, sw := Scan.Digits(v % 256), Scan.Digits(w % 256);
    var tv, tw := Part(v / 256 % 256, sv), Part(w / 256 % 256, sw);
    var uv, uw := Part(v / 0x1_0000 % 256, tv), Part(w / 0x1_0000 % 256, tw);
    PartIsInjective(v / 0x100_0000, uv, w / 0x100_0000, uw);
    PartIsInjective(v / 0x1_0000 % 256, tv, w / 0x1_0000 % 256, tw);
    PartIsInjective(v / 256 % 256, sv, w / 256 % 256, sw);
    assert Scan.DigitsValue(sv) == Scan.DigitsValue(sw);
    Bytes(v);
    Bytes(w);
  }

  lemma Bytes(v: nat)
    ensures v == v / 0x100_0000 * 0x100_0000 + v / 0x1_0000 % 256 * 0x1_0000 + v / 256 % 256 * 256 + v % 256
  {
  }

  /** The four bytes of an address, with dots between them. */
  lemma DottedIsBytes(a: nat, b: nat, c: nat, d: nat)
    requires a < 256 && b < 256 && c < 256 && d < 256
    ensures Dotted(((a * 256 + b) * 256 + c) * 256 + d) ==
            Scan.FormatInt(a) + "." + (Scan.FormatInt(b) + "." + (Scan.FormatInt(c) + "." + Scan.FormatInt(d)))
  {
    hide Scan.Digits;
    var v := ((a * 256 + b) * 256 + c) * 256 + d;
    Quotient((a * 256 + b) * 256 + c, d);
    Quotient(a * 256 + b, c);
    Quotient(a, b);
    DividedTwice(v);
  }

  lemma Quotient(q: nat, r: nat)
    requires r < 256
    ensures (q * 256 + r) / 256 == q && (q * 256 + r) % 256 == r
  {
  }

  lemma DividedTwice(v: nat)
    ensures v / 0x1_0000 == v / 256 / 256 && v / 0x100_0000 == v / 256 / 256 / 256
  {
  }

  /** Usable are the addresses behind the first four of a block and in front of its last. */
  lemma UsableExactly(b: Block, v: nat)
    requires IsBlock(b)
    ensures UsableAddress(Some(b), v) <==> b.net + 4 <= v < b.net + Pow2(32 - b.prefix) - 1
    ensures !UsableAddress(None, v)
  {
    hide Pow2;
  }

  // ---- The lowest free address

  predicate Taken(used: map<string, bool>, v: nat) { Dotted(v) in used && used[Dotted(v)] }

  /** The lowest usable address that is not taken. */
  ghost predicate IsFirstFree(c: Cidr, used: map<string, bool>, v: nat)
    requires Parsed(c)
  {
    && UsableAddress(c, v) && !Taken(used, v)
    && forall u :: 0 <= u < v && UsableAddress(c, u) ==> Taken(used, u)
  }

  /** The empty text exactly when every usable address is taken; otherwise the lowest free one. */
  method FirstFree(c: Cidr, used: map<string, bool>) returns (ip: string)
    requires Parsed(c)
    ensures ip == "" <==> forall v: nat :: UsableAddress(c, v) ==> Taken(used, v)
    ensures ip != "" ==> exists v: nat :: IsFirstFree(c, used, v) && ip == Dotted(v)
  {
    hide Dotted;
    var r := HostRange(c);
    if r.None? { return ""; }
    RangeFits(c);
    var v, last := r.value.0, r.value.1;
    while v <= last
      invariant r.value.0 <= v <= last + 1 < ADDRESSES
      invariant forall u :: r.value.0 <= u < v ==> Taken(used, u)
    {
      var text := Dotted(v);
      if !(text in used && used[text]) {
        assert IsFirstFree(c, used, v);
        return text;
      }
      v := (v + 1) % ADDRESSES;
    }
    return "";
  }

  /** One past the last address still fits 32 bits, so the loop counter never wraps. */
  lemma RangeFits(c: Cidr)
    requires Parsed(c) && HostRange(c).Some?
    ensures HostRange(c).value.0 <= HostRange(c).value.1 && HostRange(c).value.1 + 1 < ADDRESSES
  {
  }

  /** Usable: what the library parses as an address of the range. */
  function Usable(c: Cidr, parse: string -> Option<nat>, ip: string): bool
    requires Parsed(c)
  {
    parse(ip).Some? && UsableAddress(c, parse(ip).value)
  }

  /** FirstFree and Usable agree: what is handed out is usable. */
  lemma FirstFreeIsUsable(c: Cidr, used: map<string, bool>, v: nat, parse: string -> Option<nat>)
    requires Parsed(c) && IsFirstFree(c, used, v) && parse(Dotted(v)) == Some(v)
    ensures Usable(c, parse, Dotted(v))
  {
  }

  function UsableAddresses(c: Cidr): set<nat>
    requires Parsed(c)
  {
    set v | 0 <= v < ADDRESSES && UsableAddress(c, v)
  }

  predicate Between(lo: nat, v: nat, hi: nat) { lo <= v < hi }

  function Interval(lo: nat, hi: nat): set<nat> { set v | 0 <= v < hi && Between(lo, v, hi) }

  lemma {:induction false} IntervalSize(lo: nat, hi: nat)
    requires lo <= hi
    ensures |Interval(lo, hi)| == hi - lo
    decreases hi - lo
  {
    if lo == hi {
      assert Interval(lo, hi) == {};
    } else {
      IntervalSize(lo, hi - 1);
      assert Interval(lo, hi) == Interval(lo, hi - 1) + {hi - 1};
    }
  }

  lemma SmallSizes(b: Block)
    requires b.prefix <= BITS
    ensures if b.prefix <= 29 then Size(b) >= 8 else Size(b) <= 4
  {
    var n := BITS - b.prefix;
    if n >= 3 {
      Pow2Adds(3, n - 3);
      assert Pow2(3) == 8;
    } else {
      assert Pow2(2) == 4 && Pow2(1) == 2 && Pow2(0) == 1;
    }
  }

  /** Up to prefix 29 all but five addresses of a block are usable, beyond it none. */
  lemma UsableCount(b: Block)
    requires IsBlock(b)
    ensures |UsableAddresses(Some(b))| == if b.prefix <= 29 then Size(b) - 5 else 0
  {
    hide Pow2;
    SmallSizes(b);
    if b.prefix <= 29 {
      var lo, hi := b.net + RESERVED_LOW_ADDRS, b.net + (Size(b) - 1);
      assert UsableAddresses(Some(b)) == Interval(lo, hi);
      IntervalSize(lo, hi);
    } else {
      assert UsableAddresses(Some(b)) == {};
    }
  }
}

/**
 Allocators of a subnet at once (internal/ipalloc/ipalloc.go:13-27): each holds the subnet's lock from reading
 the used addresses until its own is stored, while addresses may be given back at any time.
 */
module Allocators {
  import opened Common
  import opened IpAlloc

  datatype Phase = Arrived | Locked | Chosen(v: nat) | Stored(got: Option<nat>) | Left(got: Option<nat>)

  datatype Caller = Caller(subnet: string, phase: Phase)

  /** The range of each subnet, its used addresses, who holds its lock, and the callers. */
  datatype World = World(range: string -> Cidr, used: map<string, set<nat>>, holders: map<string, nat>,
                         callers: seq<Caller>)

  datatype Step =
    | Arrive(subnet: string)
    | Lock(c: nat)
    | Choose(c: nat, found: Option<nat>)
    | Store(c: nat)
    | Unlock(c: nat)
    | GiveBack(subnet: string, v: nat)

  function Used(w: World, subnet: string): set<nat> { if subnet in w.used then w.used[subnet] else {} }

  /** The lowest usable address that is not used; None exactly when there is none. */
  ghost predicate IsChoice(c: Cidr, used: set<nat>, found: Option<nat>)
    requires Parsed(c)
  {
    match found
    case None => forall v: nat :: UsableAddress(c, v) ==> v in used
    case Some(v) => UsableAddress(c, v) && v !in used && forall u: nat :: u < v && UsableAddress(c, u) ==> u in used
  }

  /** The texts say which addresses are used. */
  ghost predicate Tells(texts: map<string, bool>, used: set<nat>) {
    forall v: nat :: Taken(texts, v) <==> v in used
  }

  /** The text of an address stands for no other. */
  lemma TextStored(texts: map<string, bool>, used: set<nat>, v: nat)
    requires Tells(texts, used)
    ensures Tells(texts[Dotted(v) := true], used + {v})
    ensures Tells(texts[Dotted(v) := false], used - {v}) && Tells(texts - {Dotted(v)}, used - {v})
  {
    hide Dotted;
    forall u: nat | Dotted(u) == Dotted(v) ensures u == v { DottedIsInjective(u, v); }
  }

  /** What FirstFree finds in the texts is the choice of the allocator. */
  lemma FirstFreeIsChoice(c: Cidr, texts: map<string, bool>, used: set<nat>)
    requires Parsed(c) && Tells(texts, used)
    ensures IsChoice(c, used, None) <==> forall v: nat :: UsableAddress(c, v) ==> Taken(texts, v)
    ensures forall v: nat :: IsChoice(c, used, Some(v)) <==> IsFirstFree(c, texts, v)
  {
    hide Dotted, HostRange;
    forall v: nat ensures IsChoice(c, used, Some(v)) <==> IsFirstFree(c, texts, v) {}
  }

  function Elements(s: seq<nat>): set<nat> { set v | v in s }

  /** The step of a caller that holds the lock: the texts of what is used, and the lowest that is not there. */
  method ChooseAddress(c: Cidr, stored: seq<nat>) returns (ip: string, ghost found: Option<nat>)
    requires Parsed(c)
    ensures IsChoice(c, Elements(stored), found)
    ensures ip == if found.Some? then Dotted(found.value) else ""
  {
    hide Dotted, HostRange;
    var texts: map<string, bool> := map[];
    for i := 0 to |stored|
      invariant Tells(texts, Elements(stored[..i]))
    {
      TextStored(texts, Elements(stored[..i]), stored[i]);
      texts := texts[Dotted(stored[i]) := true];
      assert Elements(stored[..i + 1]) == Elements(stored[..i]) + {stored[i]};
    }
    assert stored[..|stored|] == stored;
    FirstFreeIsChoice(c, texts, Elements(stored));
    ip := FirstFree(c, texts);
    found := None;
    if ip != "" {
      ghost var v: nat :| IsFirstFree(c, texts, v) && ip == Dotted(v);
      found := Some(v);
    }
  }

  ghost predicate Enabled(w: World, step: Step) {
    match step
    case Arrive(_) => true
    case Lock(c) => c < |w.callers| && w.callers[c].phase.Arrived? && w.callers[c].subnet !in w.holders
    case Choose(c, found) =>
      && c < |w.callers| && w.callers[c].phase.Locked? && Parsed(w.range(w.callers[c].subnet))
      && IsChoice(w.range(w.callers[c].subnet), Used(w, w.callers[c].subnet), found)
    case Store(c) => c < |w.callers| && w.callers[c].phase.Chosen?
    case Unlock(c) => c < |w.callers| && w.callers[c].phase.Stored?
    case GiveBack(_, _) => true
  }

  function Move(w: World, c: nat, phase: Phase): World
    requires c < |w.callers|
  {
    w.(callers := w.callers[c := w.callers[c].(phase := phase)])
  }

  ghost function Apply(w: World, step: Step): World
    requires Enabled(w, step)
  {
    match step
    case Arrive(subnet) => w.(callers := w.callers + [Caller(subnet, Arrived)])
    case Lock(c) => Move(w.(holders := w.holders[w.callers[c].subnet := c]), c, Locked)
    case Choose(c, found) => Move(w, c, if found.Some? then Chosen(found.value) else Stored(None))
    case Store(c) =>
      var subnet, v := w.callers[c].subnet, w.callers[c].phase.v;
      Move(w.(used := w.used[subnet := Used(w, subnet) + {v}]), c, Stored(Some(v)))
    case Unlock(c) => Move(w.(holders := w.holders - {w.callers[c].subnet}), c, Left(w.callers[c].phase.got))
    case GiveBack(subnet, v) => w.(used := w.used[subnet := Used(w, subnet) - {v}])
  }

  predicate Holds(c: Caller) { c.phase.Locked? || c.phase.Chosen? || c.phase.Stored? }

  /** Who is past Lock and before Unlock is the holder; what it has chosen nobody uses. */
  ghost predicate Inv(w: World) {
    && (forall c :: 0 <= c < |w.callers| && Holds(w.callers[c]) ==>
          w.callers[c].subnet in w.holders && w.holders[w.callers[c].subnet] == c)
    && (forall c :: 0 <= c < |w.callers| && w.callers[c].phase.Chosen? ==>
          w.callers[c].phase.v !in Used(w, w.callers[c].subnet))
  }

  lemma StepKeepsInv(w: World, step: Step)
    requires Inv(w) && Enabled(w, step)
    ensures Inv(Apply(w, step))
  {
  }

  ghost predicate Possible(range: string -> Cidr, steps: seq<Step>)
    decreases |steps|, 0
  {
    var n := |steps|;
    n > 0 ==> Possible(range, steps[..n - 1]) && Enabled(After(range, steps[..n - 1]), steps[n - 1])
  }

  ghost function After(range: string -> Cidr, steps: seq<Step>): World
    requires Possible(range, steps)
    decreases |steps|, 1
  {
    var n := |steps|;
    if n == 0 then World(range, map[], map[], []) else Apply(After(range, steps[..n - 1]), steps[n - 1])
  }

  lemma {:induction false} RunKeepsInv(range: string -> Cidr, steps: seq<Step>)
    requires Possible(range, steps)
    ensures Inv(After(range, steps))
  {
    var n := |steps|;
    if n > 0 {
      RunKeepsInv(range, steps[..n - 1]);
      StepKeepsInv(After(range, steps[..n - 1]), steps[n - 1]);
    }
  }

  /** In every interleaving, an address about to be stored is used by nobody, and nobody else has chosen it. */
  lemma NeverHandedOutTwice(range: string -> Cidr, steps: seq<Step>, c: nat)
    requires Possible(range, steps) && Enabled(After(range, steps), Store(c))
    ensures var w := After(range, steps);
      && w.callers[c].phase.v !in Used(w, w.callers[c].subnet)
      && forall d :: 0 <= d < |w.callers| && d != c && w.callers[d].subnet == w.callers[c].subnet ==>
           !w.callers[d].phase.Chosen?
  {
    hide Possible, After;
    RunKeepsInv(range, steps);
  }

  lemma {:induction false} PrefixPossible(range: string -> Cidr, steps: seq<Step>, n: nat)
    requires Possible(range, steps) && n <= |steps|
    ensures Possible(range, steps[..n])
    ensures n < |steps| ==> Enabled(After(range, steps[..n]), steps[n])
    ensures n < |steps| ==> Possible(range, steps[..n + 1])
    ensures n < |steps| ==> After(range, steps[..n + 1]) == Apply(After(range, steps[..n]), steps[n])
    decreases |steps|
  {
    var m := |steps|;
    if n == m {
      assert steps[..n] == steps;
    } else if n == m - 1 {
      assert steps[..m] == steps;
    } else {
      var init := steps[..m - 1];
      assert init[..n] == steps[..n] && init[..n + 1] == steps[..n + 1] && init[n] == steps[n];
      hide After, Apply, Enabled;
      PrefixPossible(range, init, n);
    }
  }

  lemma StepKeepsUsed(w: World, step: Step, subnet: string, v: nat)
    requires Enabled(w, step) && v in Used(w, subnet) && step != GiveBack(subnet, v)
    ensures v in Used(Apply(w, step), subnet)
  {
    hide IsChoice, Parsed;
  }

  /** A used address stays used until it is given back. */
  lemma {:induction false} StaysUsed(range: string -> Cidr, steps: seq<Step>, n: nat, m: nat, subnet: string, v: nat)
    requires Possible(range, steps) && n <= m <= |steps|
    requires Possible(range, steps[..n]) && v in Used(After(range, steps[..n]), subnet)
    requires forall k :: n <= k < m ==> steps[k] != GiveBack(subnet, v)
    ensures Possible(range, steps[..m]) && v in Used(After(range, steps[..m]), subnet)
    decreases m - n
  {
    hide After, Possible, Apply, Enabled, Used;
    if n < m {
      StaysUsed(range, steps, n, m - 1, subnet, v);
      PrefixPossible(range, steps, m - 1);
      StepKeepsUsed(After(range, steps[..m - 1]), steps[m - 1], subnet, v);
    }
  }

  /** The step stores the address for a caller of the subnet. */
  ghost predicate Stores(w: World, step: Step, subnet: string, v: nat) {
    step.Store? && Enabled(w, step) && w.callers[step.c].subnet == subnet && w.callers[step.c].phase.v == v
  }

  lemma StoredIsUsed(w: World, step: Step, subnet: string, v: nat)
    requires Stores(w, step, subnet, v) && Inv(w)
    ensures v !in Used(w, subnet) && v in Used(Apply(w, step), subnet)
  {
  }

  /** In every interleaving, an address that a subnet hands out again has been given back in between. */
  lemma AgainOnlyAfterGivenBack(range: string -> Cidr, steps: seq<Step>, i: nat, j: nat, subnet: string, v: nat)
    requires Possible(range, steps) && i < j < |steps|
    requires Possible(range, steps[..i]) && Stores(After(range, steps[..i]), steps[i], subnet, v)
    requires Possible(range, steps[..j]) && Stores(After(range, steps[..j]), steps[j], subnet, v)
    ensures exists k :: i < k < j && steps[k] == GiveBack(subnet, v)
  {
    hide After, Possible, Apply, Enabled, Used, Stores, Inv;
    RunKeepsInv(range, steps[..i]);
    RunKeepsInv(range, steps[..j]);
    PrefixPossible(range, steps, i);
    StoredIsUsed(After(range, steps[..i]), steps[i], subnet, v);
    StoredIsUsed(After(range, steps[..j]), steps[j], subnet, v);
    if forall k :: i < k < j ==> steps[k] != GiveBack(subnet, v) {
      StaysUsed(range, steps, i + 1, j, subnet, v);
    }
  }
}
