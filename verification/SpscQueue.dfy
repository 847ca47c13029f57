/** SpscQueue as an object: one method per atomic step of each thread, each proved to be that step
    of the protocol, and the two operations as their steps in order. */
module SpscQueues {
  import opened Messages
  import opened SpscProtocol

  class SpscQueue<T> {
    const slots: array<T>
    var head: nat
    var tail: nat
    /** What each thread holds in its registers between two steps. */
    var producer: Producer<T>
    var consumer: Consumer<T>
    ghost var pushed: seq<T>
    ghost var popped: seq<T>

    ghost function State(): Queue<T>
      reads this, slots
    {
      Queue(slots.Length, slots[..], head, tail, producer, consumer, pushed, popped)
    }

    constructor (capacity: nat, blank: T)
      requires capacity > 0
      ensures fresh(slots) && State() == NewQueue(seq(capacity, _ => blank)) && Inv(State())
    {
      slots := new T[capacity](_ => blank);
      head, tail, producer, consumer, pushed, popped := 0, 0, PIdle, CIdle, [], [];
      new;
      assert slots[..] == seq(capacity, _ => blank);
    }

    method LoadTail(item: T)
      requires slots.Length > 0
      modifies this`producer
      ensures State() == Do(old(State()), PLoad(item))
    {
      if producer.PIdle? {
        producer := PLoaded(item, tail);
      }
    }

    /** The fullness check and, if there is room, the payload copy. */
    method WriteOrRefuse() returns (ok: bool)
      requires slots.Length > 0 && producer.PLoaded?
      modifies this`producer, slots
      ensures ok == !Full(old(State()))
      ensures State() == Do(old(State()), if ok then PWrite else PRefuse)
    {
      ghost var q := State();
      if head - producer.seenTail >= slots.Length {
        producer := PIdle;
        return false;
      }
      slots[head % slots.Length] := producer.item;
      producer := PWritten(producer.item);
      assert State() == Do(q, PWrite);
      return true;
    }

    method StoreHead()
      requires slots.Length > 0 && producer.PWritten?
      modifies this`head, this`producer, this`pushed
      ensures State() == Do(old(State()), PStore)
    {
      pushed := pushed + [producer.item];
      head, producer := head + 1, PIdle;
    }

    method LoadHead()
      requires slots.Length > 0
      modifies this`consumer
      ensures State() == Do(old(State()), CLoad)
    {
      if consumer.CIdle? {
        consumer := CLoaded(head);
      }
    }

    /** The emptiness check and, if there is an item, the payload copy. */
    method CopyOrGiveUp() returns (ok: bool)
      requires slots.Length > 0 && consumer.CLoaded?
      modifies this`consumer
      ensures ok == (tail < old(consumer).seenHead)
      ensures State() == Do(old(State()), if ok then CCopy else CEmpty)
    {
      if tail >= consumer.seenHead {
        consumer := CIdle;
        return false;
      }
      consumer := CCopied(slots[tail % slots.Length]);
      return true;
    }

    method StoreTail() returns (item: T)
      requires slots.Length > 0 && consumer.CCopied?
      modifies this`tail, this`consumer, this`popped
      ensures item == old(consumer).item
      ensures State() == Do(old(State()), CStore)
    {
      item := consumer.item;
      popped := popped + [item];
      tail, consumer := tail + 1, CIdle;
    }

    /** With no other thread between its steps, `try_push` enqueues unless the ring is full. */
    method TryPush(item: T) returns (ok: bool)
      requires Inv(State()) && producer.PIdle?
      modifies this, slots
      ensures Inv(State()) && producer.PIdle? && consumer == old(consumer)
      ensures ok == (|Contents(old(State()))| < slots.Length)
      ensures Contents(State()) == Contents(old(State())) + if ok then [item] else []
    {
      PushAlone(State(), item);
      LoadTail(item);
      ok := WriteOrRefuse();
      if ok {
        StoreHead();
      }
    }

    /** With no other thread between its steps, `try_pop` dequeues the oldest item unless the ring is empty. */
    method TryPop() returns (r: Option<T>)
      requires Inv(State()) && consumer.CIdle?
      modifies this`tail, this`consumer, this`popped
      ensures Inv(State()) && consumer.CIdle?
      ensures r.None? ==> Contents(old(State())) == [] && Contents(State()) == []
      ensures r.Some? ==> Contents(old(State())) == [r.value] + Contents(State())
    {
      ghost var q := State();
      PopAlone(q);
      LoadHead();
      var ok := CopyOrGiveUp();
      if !ok { return None; }
      var item := StoreTail();
      return Some(item);
    }
  }
}
