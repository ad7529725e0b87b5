/** IPv4 addresses and CIDR blocks (section 3.1 of RFC 4632), as numbers below two to the 32. */
module Ipv4 {
  const BITS: nat := 32
  const ADDRESSES: nat := 0x1_0000_0000

  function Pow2(n: nat): (r: nat)
    ensures r > 0
  {
    if n == 0 then 1 else 2 * Pow2(n - 1)
  }

  lemma {:induction false} Pow2Adds(a: nat, b: nat)
    ensures Pow2(a + b) == Pow2(a) * Pow2(b)
  {
    if a > 0 {
      Pow2Adds(a - 1, b);
      assert Pow2(a) == 2 * Pow2(a - 1) && Pow2(a - 1 + b + 1) == 2 * Pow2(a - 1 + b);
      hide Pow2;
      Doubled(Pow2(a - 1), Pow2(b));
    }
  }

  lemma Doubled(x: nat, y: nat)
    ensures 2 * (x * y) == 2 * x * y
  {
  }

  /** A block: the first of its addresses, and how many leading bits they share. */
  datatype Block = Block(net: nat, prefix: nat)

  function Size(b: Block): nat
    requires b.prefix <= BITS
  {
    Pow2(BITS - b.prefix)
  }

  /** The address is aligned to the size of the block, and the block ends within the address space. */
  predicate IsBlock(b: Block) { b.prefix <= BITS && b.net % Size(b) == 0 && b.net + Size(b) <= ADDRESSES }

  predicate Contains(b: Block, v: nat)
    requires b.prefix <= BITS
  {
    b.net <= v < b.net + Size(b)
  }

  lemma MulLess(a: int, b: int, k: nat)
    requires a * k < b * k
    ensures a < b
  {
  }

  lemma Multiple(x: nat, size: nat) returns (k: nat)
    requires size > 0 && x % size == 0
    ensures x == k * size
  {
    k := x / size;
  }

  /** Of two blocks with an address in common, the one with the longer prefix lies inside the other. */
  lemma BlocksNest(inner: Block, outer: Block, v: nat)
    requires IsBlock(inner) && IsBlock(outer) && outer.prefix <= inner.prefix
    requires Contains(inner, v) && Contains(outer, v)
    ensures outer.net <= inner.net && inner.net + Size(inner) <= outer.net + Size(outer)
  {
    hide Pow2;
    var small, times := Size(inner), Pow2(inner.prefix - outer.prefix);
    Pow2Adds(inner.prefix - outer.prefix, BITS - inner.prefix);
    var k := Multiple(inner.net, small);
    var j := Multiple(outer.net, Size(outer));
    assert Size(outer) == times * small;
    hide Size;
    Nested(k, j, times, small, v);
  }

  lemma Nested(k: nat, j: nat, times: nat, small: nat, v: nat)
    requires k * small <= v < k * small + small && j * (times * small) <= v < j * (times * small) + times * small
    ensures j * (times * small) <= k * small && k * small + small <= j * (times * small) + times * small
  {
    var n := j * times;
    assert j * (times * small) == n * small;
    assert (k + 1) * small == k * small + small && (n + times) * small == n * small + times * small;
    MulLess(n, k + 1, small);
    MulLess(k, n + times, small);
    MulAtMost(n, k, small);
    MulAtMost(k + 1, n + times, small);
  }

  lemma MulAtMost(a: int, b: int, k: nat)
    requires a <= b
    ensures a * k <= b * k
  {
  }
}
