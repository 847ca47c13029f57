/** FlatOrderMap as the source writes it: slots updated in place by probe loops.
    Every method is proved to compute its function of module OrderTable. */
module FlatOrderMaps {
  import opened Messages
  import opened Probing
  import opened OrderTable

  class FlatOrderMap {
    const hash: Hash
    var slots: array<LiveOrder>
    var capacity: nat
    var size: nat

    ghost function Value(): Table
      reads this, slots
    {
      Table(slots[..], size)
    }

    ghost predicate Valid()
      reads this, slots
    {
      slots.Length == capacity && Counted(Value())
    }

    constructor (hash: Hash)
      ensures Valid() && fresh(slots) && this.hash == hash
      ensures slots.Length == 0x10_0000 && Value() == EmptyTable(0x10_0000)
      ensures forall i :: 0 <= i < slots.Length ==> slots[i] == LiveOrder(0, 0, 0, 0 as char, false)
    {
      this.hash := hash;
      var initial := new LiveOrder[DEFAULT_CAPACITY](_ => PRISTINE);
      slots, capacity, size := initial, DEFAULT_CAPACITY, 0;
      new;
      assert slots[..] == EmptyTable(DEFAULT_CAPACITY).slots;
    }

    /** The slot index plays the part of the returned pointer. */
    method Find(ref: u64) returns (r: Option<nat>)
      requires Valid()
      ensures r == Locate(hash, Value().slots, ref)
    {
      ghost var s, home := slots[..], Home(hash(ref), capacity);
      var idx := hash(ref) % capacity;
      var probe := 0;
      while probe < capacity
        invariant probe <= capacity && idx < capacity
        invariant probe < capacity ==> idx == At(home, probe, capacity)
        invariant FirstStop(s, home, Lookup(ref), 0) == FirstStop(s, home, Lookup(ref), probe)
      {
        if !slots[idx].occupied && slots[idx].ref == 0 { return None; }
        if slots[idx].occupied && slots[idx].ref == ref { return Some(idx); }
        StepIsNext(home, probe, capacity);
        idx := (idx + 1) % capacity;
        probe := probe + 1;
      }
      return None;
    }

    /** The unbounded `for (;;)` of `insert`: it ends because a slot is unoccupied. */
    method FindPlacement(ref: u64) returns (idx: nat)
      requires Valid() && size < capacity
      ensures idx == StopSlot(hash, slots[..], Placement(ref), ref)
    {
      ghost var s, home := slots[..], Home(hash(ref), capacity);
      PlacementStops(s, home, Placement(ref));
      ghost var stop := FirstStop(s, home, Placement(ref), 0);
      idx := hash(ref) % capacity;
      ghost var d := 0;
      while slots[idx].occupied && slots[idx].ref != ref
        invariant d <= stop && idx == At(home, d, capacity)
        decreases stop - d
      {
        StepIsNext(home, d, capacity);
        idx := (idx + 1) % capacity;
        d := d + 1;
      }
    }

    /** The inner loop of `rehash`. */
    method FindHole(newSlots: array<LiveOrder>, ref: u64) returns (idx: nat)
      requires CountOccupied(newSlots[..]) < newSlots.Length
      ensures idx == StopSlot(hash, newSlots[..], Hole, ref)
    {
      ghost var s, home := newSlots[..], Home(hash(ref), newSlots.Length);
      PlacementStops(s, home, Hole);
      ghost var stop := FirstStop(s, home, Hole, 0);
      idx := hash(ref) % newSlots.Length;
      ghost var d := 0;
      while newSlots[idx].occupied
        invariant d <= stop && idx == At(home, d, newSlots.Length)
        decreases stop - d
      {
        StepIsNext(home, d, newSlots.Length);
        idx := (idx + 1) % newSlots.Length;
        d := d + 1;
      }
    }

    method CopySlot(newSlots: array<LiveOrder>, i: nat)
      requires Valid() && newSlots != slots && i < capacity < newSlots.Length
      requires CountOccupied(newSlots[..]) == CountOccupied(slots[..][..i])
      modifies newSlots
      ensures CountOccupied(newSlots[..]) == CountOccupied(slots[..][..i + 1])
      ensures CopiedFrom(hash, slots[..], i, old(newSlots[..])) == CopiedFrom(hash, slots[..], i + 1, newSlots[..])
    {
      ghost var src, dst := slots[..], newSlots[..];
      assert src[..i + 1][..i] == src[..i];
      if slots[i].occupied {
        var idx := FindHole(newSlots, slots[i].ref);
        newSlots[idx] := slots[i];
        assert newSlots[..] == dst[idx := src[i]];
        CountUpdate(dst, idx, src[i]);
      }
    }

    method Rehash()
      requires Valid()
      modifies this
      ensures Valid() && fresh(slots)
      ensures Value() == Rehashed(hash, old(Value()))
    {
      ghost var src := slots[..];
      var newSlots := new LiveOrder[capacity * 2](_ => PRISTINE);
      ghost var empty := EmptyTable(capacity * 2).slots;
      assert newSlots[..] == empty;
      assert src[..0] == [];
      var i := 0;
      while i < capacity
        invariant i <= capacity
        invariant CountOccupied(newSlots[..]) == CountOccupied(src[..i])
        invariant CopiedFrom(hash, src, 0, empty) == CopiedFrom(hash, src, i, newSlots[..])
        modifies newSlots
      {
        CopySlot(newSlots, i);
        i := i + 1;
      }
      assert src[..i] == src;
      slots, capacity := newSlots, capacity * 2;
    }

    /** The load check at the head of `insert`. */
    method MakeRoom()
      requires Valid()
      modifies this
      ensures Valid() && (slots == old(slots) || fresh(slots))
      ensures Value() == MadeRoom(hash, old(Value()))
    {
      if size * 4 >= capacity * 3 {
        Rehash();
      }
    }

    method Insert(ref: u64, order: LiveOrder)
      requires Valid()
      modifies this, slots
      ensures Valid() && (slots == old(slots) || fresh(slots))
      ensures Value() == Inserted(hash, old(Value()), ref, order)
    {
      MakeRoom();
      ghost var t := Value();
      var idx := FindPlacement(ref);
      InsertedSlot(hash, old(Value()), ref, order, idx);
      if !slots[idx].occupied {
        size := size + 1;
      }
      slots[idx] := order.(ref := ref, occupied := true);
      assert slots[..] == t.slots[idx := order.(ref := ref, occupied := true)];
      assert Value() == Inserted(hash, old(Value()), ref, order);
    }

    /** `erase` runs the probe loop of `find` and releases the slot it stops at. */
    method Erase(ref: u64)
      requires Valid()
      modifies this, slots
      ensures Valid() && slots == old(slots)
      ensures Value() == Erased(hash, old(Value()), ref)
    {
      ghost var t := Value();
      ErasedSlot(hash, t, ref);
      var r := Find(ref);
      if r.Some? {
        slots[r.value] := slots[r.value].(occupied := false, ref := TOMBSTONE);
        size := size - 1;
        assert slots[..] == t.slots[r.value := Tombstone(t.slots[r.value])];
      }
      assert Value() == Erased(hash, t, ref);
    }
  }
}
