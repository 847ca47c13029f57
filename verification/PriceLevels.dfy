/** The sorted price-level arrays of a book: binary search, shifting insert and
    shifting removal, proved to act as a map from price to resting shares. */
module PriceLevels {
  import opened Messages

  const MAX_LEVELS: nat := 256

  datatype PriceLevel = PriceLevel(price: u32, total: u32)

  /** Bids are kept best first descending, asks best first ascending. */
  predicate Better(p: u32, q: u32, descending: bool) {
    if descending then p > q else p < q
  }

  ghost predicate Sorted(l: seq<PriceLevel>, descending: bool) {
    forall i, j :: 0 <= i < j < |l| ==> Better(l[i].price, l[j].price, descending)
  }

  /** How many levels are strictly better than `price`: its index, or where it belongs. */
  function Rank(l: seq<PriceLevel>, price: u32, descending: bool): (r: nat)
    ensures r <= |l|
    ensures forall i :: 0 <= i < r ==> Better(l[i].price, price, descending)
    ensures r < |l| ==> !Better(l[r].price, price, descending)
  {
    if l == [] || !Better(l[0].price, price, descending) then 0 else 1 + Rank(l[1..], price, descending)
  }

  predicate HasLevel(l: seq<PriceLevel>, price: u32, descending: bool) {
    var r := Rank(l, price, descending);
    r < |l| && l[r].price == price
  }

  /** `total_shares += shares` on a 32-bit field. */
  function Plus32(a: u32, b: u32): u32 {
    (a + b) % U32
  }

  function AddLevel(l: seq<PriceLevel>, price: u32, shares: u32, descending: bool): seq<PriceLevel> {
    var r := Rank(l, price, descending);
    if HasLevel(l, price, descending) then l[r := PriceLevel(price, Plus32(l[r].total, shares))]
    else if |l| >= MAX_LEVELS then l
    else l[..r] + [PriceLevel(price, shares)] + l[r..]
  }

  function RemoveLevel(l: seq<PriceLevel>, price: u32, shares: u32, descending: bool): seq<PriceLevel> {
    var r := Rank(l, price, descending);
    if !HasLevel(l, price, descending) then l
    else if shares >= l[r].total then l[..r] + l[r + 1..]
    else l[r := PriceLevel(price, l[r].total - shares)]
  }

  // ---- in place ----

  /** The index of `price`, or -(insertion point) - 1. */
  method BinaryFind(levels: array<PriceLevel>, count: nat, price: u32, descending: bool) returns (idx: int)
    requires count <= levels.Length && Sorted(levels[..count], descending)
    ensures var l := levels[..count];
            if HasLevel(l, price, descending) then idx == Rank(l, price, descending)
            else idx == -(Rank(l, price, descending) + 1)
  {
    ghost var l, r := levels[..count], Rank(levels[..count], price, descending);
    var lo, hi := 0, count - 1;
    while lo <= hi
      invariant 0 <= lo <= hi + 1 <= count
      invariant forall i :: 0 <= i < lo ==> Better(l[i].price, price, descending)
      invariant forall i :: hi < i < count ==> Better(price, l[i].price, descending)
    {
      var mid := (lo + hi) / 2;
      assert levels[mid] == l[mid];
      if levels[mid].price == price {
        RankIs(l, price, descending, mid);
        return mid;
      }
      if Better(levels[mid].price, price, descending) {
        lo := mid + 1;
      } else {
        hi := mid - 1;
      }
    }
    RankIs(l, price, descending, lo);
    return -(lo + 1);
  }

  lemma {:induction false} RankIs(l: seq<PriceLevel>, price: u32, descending: bool, r: nat)
    requires Sorted(l, descending) && r <= |l|
    requires r < |l| ==> l[r].price == price || Better(price, l[r].price, descending)
    requires r == |l| || l[r].price != price ==> forall i :: 0 <= i < r ==> Better(l[i].price, price, descending)
    ensures Rank(l, price, descending) == r
  {
  }

  method ShiftRight(levels: array<PriceLevel>, count: nat, pos: nat)
    requires pos <= count < levels.Length
    modifies levels
    ensures levels[..pos] == old(levels[..pos])
    ensures levels[pos + 1..count + 1] == old(levels[pos..count])
  {
    ghost var l := levels[..count];
    var i := count;
    while i > pos
      invariant pos <= i <= count
      invariant levels[..i] == l[..i]
      invariant forall j :: i < j <= count ==> levels[j] == l[j - 1]
    {
      levels[i] := levels[i - 1];
      i := i - 1;
    }
    assert levels[..pos] == l[..pos];
  }

  method ShiftLeft(levels: array<PriceLevel>, count: nat, pos: nat)
    requires pos < count <= levels.Length
    modifies levels
    ensures levels[..count - 1] == old(levels[..count])[..pos] + old(levels[..count])[pos + 1..]
  {
    ghost var l := levels[..count];
    var j := pos;
    while j + 1 < count
      invariant pos <= j < count
      invariant forall k :: 0 <= k < pos ==> levels[k] == l[k]
      invariant forall k :: pos <= k < j ==> levels[k] == l[k + 1]
      invariant forall k :: j <= k < count ==> levels[k] == l[k]
    {
      levels[j] := levels[j + 1];
      j := j + 1;
    }
  }

  method InsertAt(levels: array<PriceLevel>, count: nat, pos: nat, level: PriceLevel)
    requires pos <= count < levels.Length
    modifies levels
    ensures levels[..count + 1] == old(levels[..pos]) + [level] + old(levels[pos..count])
  {
    ShiftRight(levels, count, pos);
    levels[pos] := level;
  }

  method AddToLevels(levels: array<PriceLevel>, count: nat, price: u32, shares: u32, descending: bool)
    returns (count': nat)
    requires levels.Length == MAX_LEVELS && count <= MAX_LEVELS && Sorted(levels[..count], descending)
    modifies levels
    ensures count' == if HasLevel(old(levels[..count]), price, descending) || count >= 256 then count else count + 1
    ensures levels[..count'] == AddLevel(old(levels[..count]), price, shares, descending)
  {
    ghost var l := levels[..count];
    var idx := BinaryFind(levels, count, price, descending);
    ghost var l1 := AddLevel(l, price, shares, descending);
    if idx >= 0 {
      assert l1 == l[idx := PriceLevel(price, Plus32(l[idx].total, shares))];
      levels[idx] := PriceLevel(price, Plus32(levels[idx].total, shares));
      assert levels[..count] == l1;
      return count;
    }
    if count >= MAX_LEVELS { return count; }
    var pos := -(idx + 1);
    assert l1 == l[..pos] + [PriceLevel(price, shares)] + l[pos..];
    InsertAt(levels, count, pos, PriceLevel(price, shares));
    return count + 1;
  }

  method RemoveFromLevels(levels: array<PriceLevel>, count: nat, price: u32, shares: u32, descending: bool)
    returns (count': nat)
    requires levels.Length == MAX_LEVELS && count <= MAX_LEVELS && Sorted(levels[..count], descending)
    modifies levels
    ensures count' <= count
    ensures levels[..count'] == RemoveLevel(old(levels[..count]), price, shares, descending)
  {
    ghost var l := levels[..count];
    var idx := BinaryFind(levels, count, price, descending);
    if idx < 0 { return count; }
    ghost var l1 := RemoveLevel(l, price, shares, descending);
    if shares >= levels[idx].total {
      assert l1 == l[..idx] + l[idx + 1..];
      ShiftLeft(levels, count, idx);
      return count - 1;
    }
    assert l1 == l[idx := PriceLevel(price, l[idx].total - shares)];
    levels[idx] := PriceLevel(price, levels[idx].total - shares);
    assert levels[..count] == l1;
    return count;
  }

  // ---- what the arrays mean ----

  /** A sorted array as a map from price to resting shares. */
  function LevelAt(l: seq<PriceLevel>, price: u32, descending: bool): Option<u32> {
    if HasLevel(l, price, descending) then Some(l[Rank(l, price, descending)].total) else None
  }

  lemma {:induction false} LevelAtIndex(l: seq<PriceLevel>, i: nat, descending: bool)
    requires Sorted(l, descending) && i < |l|
    ensures Rank(l, l[i].price, descending) == i
    ensures LevelAt(l, l[i].price, descending) == Some(l[i].total)
  {
  }

  /** Two arrays agree on a price if each level of either at that price is a level of the other. */
  lemma {:induction false} SameLevel(l: seq<PriceLevel>, k: seq<PriceLevel>, q: u32, descending: bool)
    requires Sorted(l, descending) && Sorted(k, descending)
    requires forall i :: 0 <= i < |l| && l[i].price == q ==> l[i] in k
    requires forall i :: 0 <= i < |k| && k[i].price == q ==> k[i] in l
    ensures LevelAt(l, q, descending) == LevelAt(k, q, descending)
  {
    var i, j := Rank(l, q, descending), Rank(k, q, descending);
    if HasLevel(l, q, descending) {
      var n :| 0 <= n < |k| && k[n] == l[i];
      LevelAtIndex(k, n, descending);
    } else if HasLevel(k, q, descending) {
      var n :| 0 <= n < |l| && l[n] == k[j];
      LevelAtIndex(l, n, descending);
    }
  }

  lemma {:induction false} AddKeepsSorted(l: seq<PriceLevel>, price: u32, shares: u32, descending: bool)
    requires Sorted(l, descending)
    ensures Sorted(AddLevel(l, price, shares, descending), descending)
  {
    var r := Rank(l, price, descending);
    var l1 := AddLevel(l, price, shares, descending);
    if !HasLevel(l, price, descending) && |l| < MAX_LEVELS {
      forall i, j | 0 <= i < j < |l1|
        ensures Better(l1[i].price, l1[j].price, descending)
      {
        if i < r < j {
          assert Better(l[i].price, l[j - 1].price, descending);
        } else if i == r && r < j - 1 {
          assert Better(l[r].price, l[j - 1].price, descending);
        }
      }
    }
  }

  lemma {:induction false} RemoveKeepsSorted(l: seq<PriceLevel>, price: u32, shares: u32, descending: bool)
    requires Sorted(l, descending)
    ensures Sorted(RemoveLevel(l, price, shares, descending), descending)
  {
  }

  /** Below capacity an addition is a map update at its price; at capacity a new price is dropped.
      No other price changes. */
  lemma {:induction false} AddLevelMap(l: seq<PriceLevel>, price: u32, shares: u32, descending: bool, q: u32)
    requires Sorted(l, descending)
    ensures LevelAt(AddLevel(l, price, shares, descending), q, descending) ==
            if q != price then LevelAt(l, q, descending)
            else match LevelAt(l, price, descending)
              case Some(t) => Some((t + shares) % 0x1_0000_0000)
              case None => if |l| < 256 then Some(shares) else None
  {
    var r := Rank(l, price, descending);
    var l1 := AddLevel(l, price, shares, descending);
    AddKeepsSorted(l, price, shares, descending);
    if q != price {
      forall i | 0 <= i < |l| && l[i].price == q
        ensures l[i] in l1
      {
        assert l[i] == l1[if |l1| == |l| || i < r then i else i + 1];
      }
      SameLevel(l, l1, q, descending);
    } else if l1 != l {
      LevelAtIndex(l1, r, descending);
    }
  }

  /** Removal is truncated subtraction with deletion at zero, and touches no other price. */
  lemma {:induction false} RemoveLevelMap(l: seq<PriceLevel>, price: u32, shares: u32, descending: bool, q: u32)
    requires Sorted(l, descending)
    ensures LevelAt(RemoveLevel(l, price, shares, descending), q, descending) ==
            if q != price then LevelAt(l, q, descending)
            else match LevelAt(l, price, descending)
              case Some(t) => if shares < t then Some(t - shares) else None
              case None => None
  {
    var r := Rank(l, price, descending);
    var l1 := RemoveLevel(l, price, shares, descending);
    RemoveKeepsSorted(l, price, shares, descending);
    if q != price {
      forall i | 0 <= i < |l| && l[i].price == q
        ensures l[i] in l1
      {
        assert l[i] == l1[if |l1| == |l| || i < r then i else i - 1];
      }
      SameLevel(l, l1, q, descending);
    } else if HasLevel(l, price, descending) {
      if |l1| == |l| {
        LevelAtIndex(l1, r, descending);
      } else if HasLevel(l1, price, descending) {
        var j := Rank(l1, price, descending);
        LevelAtIndex(l, if j < r then j else j + 1, descending);
      }
    }
  }
}
