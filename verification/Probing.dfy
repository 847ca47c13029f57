/** The wrapped linear probe sequence shared by both open-addressing tables. */
module Probing {
  import opened Rings

  /** The slot reached after `d` steps from `home` in a table of `n` slots. */
  function At(home: nat, d: nat, n: nat): (i: nat)
    requires home < n && d < n
    ensures i < n
  {
    if home + d < n then home + d else home + d - n
  }

  /** How many steps from `home` slot `i` is reached. */
  function Dist(home: nat, i: nat, n: nat): (d: nat)
    requires home < n && i < n
    ensures d < n && At(home, d, n) == i
  {
    if home <= i then i - home else i + n - home
  }

  function Home(hash: nat, n: nat): (home: nat)
    requires n > 0
    ensures home < n
  {
    hash % n
  }

  /** The home slot is the hash masked to the capacity. */
  lemma HomeIsRemainder(hash: nat, n: nat, q: nat, r: nat)
    requires r < n && hash == n * q + r
    ensures Home(hash, n) == r
  {
    ModIs(hash, q, r, n);
  }

  /** The slots in the order a probe from `home` visits them: the table rotated to start at `home`.
      So `n` probes visit every slot exactly once. */
  lemma ProbeOrderIsRotation<T>(s: seq<T>, home: nat)
    requires home < |s|
    ensures s[home..] + s[..home] == seq(|s|, d requires 0 <= d < |s| => s[At(home, d, |s|)])
    ensures multiset(s[home..] + s[..home]) == multiset(s)
  {
    assert s == s[..home] + s[home..];
  }

  /** Stepping the index modulo the capacity walks the probe sequence and then wraps to its start. */
  lemma StepIsNext(home: nat, d: nat, n: nat)
    requires home < n && d < n
    ensures (At(home, d, n) + 1) % n == if d + 1 < n then At(home, d + 1, n) else home
  {
    var i := At(home, d, n);
    if i + 1 < n {
      assert (i + 1) % n == i + 1;
    } else {
      assert (i + 1) % n == 0;
    }
  }
}
