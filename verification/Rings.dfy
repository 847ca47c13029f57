/** Index arithmetic of a power-of-two ring: `& Mask` as `% capacity`. */
module Rings {

  /** Two different sequence numbers less than a lap apart never share a slot. */
  lemma DistinctSlots(i: nat, j: nat, cap: nat)
    requires i < j < i + cap
    ensures i % cap != j % cap
  {
    if i % cap == j % cap {
      var a, b := i / cap, j / cap;
      assert i == cap * a + i % cap && j == cap * b + j % cap;
      assert j - i == cap * (b - a) by { Distribute(cap, a, b); }
      if b - a >= 1 { AtLeast(cap, b - a); } else { AtMost(cap, b - a); }
    }
  }

  lemma Distribute(c: int, a: int, b: int)
    ensures c * b - c * a == c * (b - a)
  {
  }

  lemma AtLeast(c: int, k: int)
    requires c > 0 && k >= 1
    ensures c * k >= c
  {
  }

  lemma AtMost(c: int, k: int)
    requires c > 0 && k <= 0
    ensures c * k <= 0
  {
  }

  /** One lap later the slot is the same. */
  lemma SameSlot(i: nat, cap: nat)
    requires cap > 0
    ensures (i + cap) % cap == i % cap
  {
    var a := i / cap;
    assert i + cap == cap * (a + 1) + i % cap by { Distribute(cap, a, a + 1); }
    ModIs(i + cap, a + 1, i % cap, cap);
  }

  lemma ModIs(n: nat, a: nat, r: nat, cap: nat)
    requires r < cap && n == cap * a + r
    ensures n % cap == r
  {
    var b, s := n / cap, n % cap;
    assert cap * a + r == cap * b + s;
    Distribute(cap, a, b);
    if b - a >= 1 { AtLeast(cap, b - a); } else if b - a <= -1 { AtLeast(cap, a - b); Distribute(cap, b, a); }
  }
}
