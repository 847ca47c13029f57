/** BroadcastJournal as an object: one method per atomic step, each proved to be that step of the
    protocol, and the operations as their steps in order. */
module BroadcastJournals {
  import opened Messages
  import opened JournalProtocol

  class BroadcastJournal<T> {
    /** Each slot is labelled with the sequence number that last touched it; no branch reads the label. */
    const journal: array<Cell<T>>
    var publishedIndex: nat
    var minConsumerSeq: nat
    /** What the producer holds in its registers between two steps. */
    var writer: Writer<T>
    /** A consumer's cursor and the index it loaded are its own locals; here is only the record of them. */
    ghost var readers: seq<Reader<T>>
    ghost var log: seq<T>

    ghost function State(): Journal<T>
      reads this, journal
    {
      Journal(journal.Length, journal[..], publishedIndex, minConsumerSeq, writer, readers, log)
    }

    constructor (capacity: nat, blank: T, consumers: nat)
      requires capacity > 0
      ensures fresh(journal) && State() == NewJournal(capacity, blank, consumers) && Inv(State())
    {
      journal := new Cell<T>[capacity](_ => Cell(-1, blank));
      publishedIndex, minConsumerSeq, writer, log := 0, 0, JIdle, [];
      readers := seq(consumers, _ => Reader(0, 0, None, []));
      new;
      assert journal[..] == NewJournal(capacity, blank, consumers).cells;
    }

    method LoadProgress(item: T)
      requires journal.Length > 0 && writer.JIdle?
      modifies this`writer
      ensures State() == Do(old(State()), JTry(item))
    {
      writer := JLoaded(item, minConsumerSeq);
    }

    /** The first bytes of the payload copy. */
    method BeginCopy(item: T)
      requires journal.Length > 0
      modifies this`writer, journal
      ensures State() == Touched(old(State()), item).(writer := JWriting(item))
    {
      ghost var j := State();
      journal[publishedIndex % journal.Length] := Cell(publishedIndex, item);
      writer := JWriting(item);
      assert journal[..] == j.cells[publishedIndex % journal.Length := Cell(publishedIndex, item)];
    }

    /** The capacity check on unsigned words and, if it passes, the start of the copy. */
    method CheckProgress() returns (ok: bool)
      requires journal.Length > 0 && writer.JLoaded?
      modifies this`writer, journal
      ensures ok == !Refused(old(State()))
      ensures State() == Do(old(State()), JCheck(old(writer).item))
    {
      var seen := writer.seenMin;
      if seen > publishedIndex || publishedIndex - seen >= journal.Length {
        writer := JIdle;
        return false;
      }
      BeginCopy(writer.item);
      return true;
    }

    method EndCopy()
      requires journal.Length > 0 && writer.JWriting?
      modifies this`writer, journal
      ensures State() == Do(old(State()), JWrite)
    {
      ghost var j := State();
      journal[publishedIndex % journal.Length] := Cell(publishedIndex, writer.item);
      writer := JWritten(writer.item);
      assert journal[..] == j.cells[publishedIndex % journal.Length := Cell(publishedIndex, j.writer.item)];
    }

    method StoreIndex()
      requires journal.Length > 0 && writer.JWritten?
      modifies this`publishedIndex, this`writer, this`log
      ensures State() == Do(old(State()), JStore)
    {
      log := log + [writer.item];
      publishedIndex, writer := publishedIndex + 1, JIdle;
    }

    /** With no other thread between its steps, `publish` appends its item whatever the readers have done. */
    method Publish(item: T)
      requires Inv(State()) && writer.JIdle?
      modifies this`publishedIndex, this`writer, this`log, journal
      ensures Inv(State()) && writer.JIdle?
      ensures log == old(log) + [item] && publishedIndex == old(publishedIndex) + 1
      ensures journal[old(publishedIndex) % journal.Length] == Cell(old(publishedIndex), item)
    {
      PublishAlone(State(), JBegin(item, item), item);
      BeginCopy(item);
      EndCopy();
      StoreIndex();
    }

    /** With no other thread between its steps, `try_publish` does so exactly when the ring has a slot
        beyond the progress reported, and otherwise changes nothing. */
    method TryPublish(item: T) returns (ok: bool)
      requires Inv(State()) && writer.JIdle?
      modifies this`publishedIndex, this`writer, this`log, journal
      ensures Inv(State()) && writer.JIdle?
      ensures ok == (minConsumerSeq <= old(publishedIndex) < minConsumerSeq + journal.Length)
      ensures !ok ==> State() == old(State())
      ensures ok ==> log == old(log) + [item] && publishedIndex == old(publishedIndex) + 1
      ensures ok ==> journal[old(publishedIndex) % journal.Length] == Cell(old(publishedIndex), item)
    {
      TryAlone(State(), item);
      LoadProgress(item);
      ok := CheckProgress();
      if ok {
        EndCopy();
        StoreIndex();
      }
    }

    method LoadIndex(ghost c: nat) returns (published: nat)
      requires journal.Length > 0 && c < |readers|
      modifies this`readers
      ensures State() == Do(old(State()), RLoad(c)) && published == readers[c].limit == publishedIndex
    {
      readers := readers[c := readers[c].(limit := publishedIndex)];
      return publishedIndex;
    }

    /** `get_payload` returns a reference: the slot stays in use until the cursor advances. */
    method GetPayload(ghost c: nat, sequence: nat) returns (item: T)
      requires journal.Length > 0 && c < |readers|
      requires sequence == readers[c].cursor < readers[c].limit && readers[c].using.None?
      modifies this`readers
      ensures State() == Do(old(State()), RUse(c)) && item == readers[c].using.value.item
    {
      item := journal[sequence % journal.Length].item;
      readers := readers[c := readers[c].(using := Some(journal[sequence % journal.Length]))];
    }

    /** The consumer's `local_seq++`, which gives the slot up. */
    ghost method Advance(c: nat)
      requires journal.Length > 0 && c < |readers| && readers[c].using.Some?
      modifies this`readers
      ensures State() == Do(old(State()), RAdvance(c))
    {
      var r := readers[c];
      readers := readers[c := Reader(r.cursor + 1, r.limit, None, r.seen + [r.using.value])];
    }

    /** The retry loop, with `spurious` failures of the weak compare-exchange still to come. */
    method ReportProgress(value: nat, spurious: nat)
      requires journal.Length > 0
      modifies this`minConsumerSeq
      ensures minConsumerSeq >= value && minConsumerSeq >= old(minConsumerSeq)
      ensures minConsumerSeq == value || minConsumerSeq == old(minConsumerSeq)
      ensures State() == Do(old(State()), JReport(value))
    {
      var current, failures := minConsumerSeq, spurious;
      while value > current
        invariant current == minConsumerSeq == old(minConsumerSeq)
        decreases failures
      {
        if failures == 0 {
          minConsumerSeq := value;
          return;
        }
        failures, current := failures - 1, minConsumerSeq;
      }
    }
  }
}
