/** The event queue: interrupts post events at any time, even between the statements of a read. */
module EventQueues {
  import opened RingBuffers

  const EVENT_BUFFER_SIZE: nat := 32
  const EVENT_SIZE: nat := 8
  const KERROR_INVALID_REQUEST := -2

  datatype Event = Event(kind: int, code: int, x: int, y: int)

  /** Where the reader is: in no read, about to look at the queue, about to copy an event, about to
      move the tail, about to count the event, or asleep. */
  datatype At = Idle | Look | Copy | Move | Note | Asleep

  /** What a reader has got so far in a read. */
  function Got(at: At, out: seq<Event>, slot: Event): seq<Event> {
    if at == Note then out + [slot] else out
  }

  /** Accepted events are those handed to readers, those the read in progress has got, and then
      those pending. */
  ghost predicate Stream(buffer: seq<Event>, head: nat, tail: nat, at: At, out: seq<Event>, slot: Event,
                         accepted: seq<Event>, delivered: seq<Event>) {
    && |buffer| == EVENT_BUFFER_SIZE && head < EVENT_BUFFER_SIZE && tail < EVENT_BUFFER_SIZE
    && accepted == delivered + Got(at, out, slot) + Pending(buffer, head, tail)
    && (at == Copy || at == Move ==> head != tail) && (at == Move ==> slot == buffer[tail])
  }

  /** No wakeup is lost: a sleeping reader has nothing to read, and a reader that was woken with
      nothing read so far finds an event. */
  ghost predicate Awake(head: nat, tail: nat, at: At, total: int, room: int, blocking: bool, interruptsBlocked: bool) {
    && total >= 0 && (at == Asleep ==> head == tail && !interruptsBlocked)
    && (at == Look && total == 0 && blocking && !interruptsBlocked ==> head != tail)
    && (if at == Idle then !interruptsBlocked && total == 0 else total == 0 ==> room >= EVENT_SIZE)
  }

  lemma Posted(buffer: seq<Event>, head: nat, tail: nat, at: At, out: seq<Event>, slot: Event, accepted: seq<Event>,
               delivered: seq<Event>, e: Event)
    requires Stream(buffer, head, tail, at, out, slot, accepted, delivered) && !IsFull(EVENT_BUFFER_SIZE, head, tail)
    ensures Stream(buffer[head := e], Advance(EVENT_BUFFER_SIZE, head), tail, at, out, slot, accepted + [e], delivered)
    ensures Advance(EVENT_BUFFER_SIZE, head) != tail
  {
    PutPending(buffer, head, tail, e);
    var before := delivered + Got(at, out, slot);
    assert before + Pending(buffer, head, tail) + [e] == before + (Pending(buffer, head, tail) + [e]);
  }

  lemma TailMoved(buffer: seq<Event>, head: nat, tail: nat, out: seq<Event>, slot: Event, accepted: seq<Event>,
                  delivered: seq<Event>)
    requires Stream(buffer, head, tail, Move, out, slot, accepted, delivered)
    ensures Stream(buffer, head, Advance(EVENT_BUFFER_SIZE, tail), Note, out, slot, accepted, delivered)
  {
    TakePending(buffer, head, tail);
    var rest := Pending(buffer, head, Advance(EVENT_BUFFER_SIZE, tail));
    assert delivered + out + ([slot] + rest) == delivered + (out + [slot]) + rest;
  }

  lemma Counted(buffer: seq<Event>, head: nat, tail: nat, out: seq<Event>, slot: Event, accepted: seq<Event>,
                delivered: seq<Event>)
    requires Stream(buffer, head, tail, Note, out, slot, accepted, delivered)
    ensures Stream(buffer, head, tail, Look, out + [slot], slot, accepted, delivered)
  {
  }

  lemma Finished(buffer: seq<Event>, head: nat, tail: nat, out: seq<Event>, slot: Event, accepted: seq<Event>,
                 delivered: seq<Event>)
    requires Stream(buffer, head, tail, Look, out, slot, accepted, delivered)
    ensures Stream(buffer, head, tail, Idle, [], slot, accepted, delivered + out)
  {
    assert delivered + out + [] == delivered + out;
  }

  /** Whether the reader is between looking at an event and having counted it. */
  predicate InEvent(at: At) {
    at == Copy || at == Move || at == Note
  }

  lemma ReadSoFar(before: seq<Event>, delivered: seq<Event>, result: seq<Event>, accepted: seq<Event>,
                  buffer: seq<Event>, head: nat, tail: nat)
    requires head < |buffer| && tail < |buffer| && accepted == delivered + before
    requires accepted == delivered + result + Pending(buffer, head, tail)
    ensures before == result + Pending(buffer, head, tail) && (head == tail ==> Pending(buffer, head, tail) == [])
  {
    assert before == accepted[|delivered|..];
  }

  class EventQueue {
    const buffer: array<Event>
    var head: nat
    var tail: nat
    var overflowCount: nat

    /** The read in progress. */
    var at: At
    var blocking: bool
    var room: int
    var total: int
    var out: seq<Event>
    var slot: Event
    var interruptsBlocked: bool

    ghost var accepted: seq<Event>
    ghost var dropped: nat
    ghost var delivered: seq<Event>

    ghost predicate Valid()
      reads this, buffer
    {
      && Stream(buffer[..], head, tail, at, out, slot, accepted, delivered)
         && Awake(head, tail, at, total, room, blocking, interruptsBlocked)
      && overflowCount == dropped && |out| == total
    }

    /** event_queue_create: all zero */
    constructor ()
      ensures Valid() && accepted == [] && delivered == [] && dropped == 0 && at == Idle
    {
      buffer := new Event[EVENT_BUFFER_SIZE](_ => Event(0, 0, 0, 0));
      head, tail, overflowCount := 0, 0, 0;
      at, blocking, room, total, out, interruptsBlocked := Idle, false, 0, 0, [], false;
      slot := Event(0, 0, 0, 0);
      accepted, dropped, delivered := [], 0, [];
    }

    /** event_queue_post, from an interrupt. */
    method Post(e: Event)
      requires Valid() && !interruptsBlocked
      modifies this`head, this`overflowCount, this`accepted, this`dropped, this`at, buffer
      ensures Valid()
      ensures var n := Count(EVENT_BUFFER_SIZE, old(head), old(tail));
              if n == EVENT_BUFFER_SIZE - 1 then accepted == old(accepted) && overflowCount == old(overflowCount) + 1
              else accepted == old(accepted) + [e] && overflowCount == old(overflowCount)
      ensures at == if old(at) == Asleep && accepted != old(accepted) then Look else old(at)
    {
      hide Pending;
      FullCount(EVENT_BUFFER_SIZE, head, tail);
      var next := Advance(EVENT_BUFFER_SIZE, head);
      if next == tail {
        overflowCount := overflowCount + 1;
        dropped := dropped + 1;
        return;
      }
      Posted(buffer[..], head, tail, at, out, slot, accepted, delivered, e);
      ghost var before := buffer[..];
      buffer[head] := e;
      assert buffer[..] == before[head := e];
      head := next;
      accepted := accepted + [e];
      // process_wakeup
      if at == Asleep {
        at := Look;
      }
    }

    /** The start of event_queue_read_raw, for a buffer of so many bytes. */
    method StartRead(size: int, blocking: bool) returns (r: int)
      requires Valid() && at == Idle
      modifies this`at, this`blocking, this`room, this`interruptsBlocked
      ensures Valid() && (r == -2 <==> size < 8) && (at == Idle <==> size < 8)
      ensures size >= 8 ==> at == Look && this.blocking == blocking && room == size && out == [] && interruptsBlocked
    {
      if size < EVENT_SIZE { return KERROR_INVALID_REQUEST; }
      this.blocking, room := blocking, size;
      interruptsBlocked := true;
      at := Look;
      r := 0;
    }

    /** The next statement of the read. When the read ends, result holds what it returns. */
    method ReadStep() returns (ended: bool, result: seq<Event>)
      requires Valid() && at != Idle && at != Asleep
      modifies this`at, this`tail, this`total, this`room, this`out, this`slot, this`interruptsBlocked, this`delivered
      ensures Valid() && accepted == old(accepted)
      ensures ended ==> at == Idle && result == old(out) && delivered == old(delivered) + result && old(at) == Look
      ensures ended && old(blocking) ==> result != []
      ensures !ended ==> delivered == old(delivered) && old(out) <= out
      // a read ends only when no room is left or nothing is pending, and sleeps only with nothing read
      ensures ended ==> old(room) < 8 || old(head) == old(tail)
      ensures !ended ==> result == []
      ensures at == Asleep ==> old(at) == Look && head == tail && old(out) == [] && old(blocking) && out == []
      ensures !ended && at != Asleep ==> at == (match old(at) case Look => Copy case Copy => Move case Move => Note
                                                case _ => Look)
      ensures old(at) == Look && at == Copy ==> old(room) >= 8 && head != tail
      ensures interruptsBlocked == (old(interruptsBlocked) && !ended && at != Asleep)
      // one event is copied, and the tail moves past it
      ensures (old(at) == Copy ==> slot == buffer[tail]) && (old(at) != Copy ==> slot == old(slot))
      ensures if old(at) == Note then out == old(out) + [slot] && room == old(room) - 8 else ended || room == old(room)
      ensures old(at) != Note && !ended ==> out == old(out)
      ensures if old(at) == Move then tail == (old(tail) + 1) % 32 else tail == old(tail)
    {
      hide Pending;
      ended, result := false, [];
      match at {
        case Look =>
          if room >= EVENT_SIZE && head != tail {
            at := Copy;
          } else if room >= EVENT_SIZE && blocking && total == 0 {
            // process_wait: interrupts are on again when it returns
            at := Asleep;
            interruptsBlocked := false;
          } else {
            Finished(buffer[..], head, tail, out, slot, accepted, delivered);
            ended, result := true, out;
            delivered := delivered + out;
            at, out, total, interruptsBlocked := Idle, [], 0, false;
          }
        case Copy =>
          slot := buffer[tail];
          at := Move;
        case Move =>
          TailMoved(buffer[..], head, tail, out, slot, accepted, delivered);
          tail := Advance(EVENT_BUFFER_SIZE, tail);
          at := Note;
        case Note =>
          Counted(buffer[..], head, tail, out, slot, accepted, delivered);
          out := out + [slot];
          total := total + 1;
          room := room - EVENT_SIZE;
          at := Look;
        case _ =>
      }
    }

    /** A read that no post comes between: it returns the first events that are pending, as many as
        there are and the buffer has room for; with nothing pending, a blocking read falls asleep. */
    method ReadAlone(size: int, blocking: bool) returns (r: int, result: seq<Event>)
      requires Valid() && at == Idle
      modifies this`at, this`blocking, this`room, this`interruptsBlocked, this`tail, this`total, this`out, this`slot,
               this`delivered
      ensures Valid() && (r == -2 <==> size < 8) && (size < 8 ==> result == [])
      ensures size >= 8 ==>
                var before := old(Pending(buffer[..], head, tail));
                if before == [] && blocking then at == Asleep && result == []
                else at == Idle && r == |result| && r == (if size / 8 < |before| then size / 8 else |before|)
                     && before == result + Pending(buffer[..], head, tail)
    {
      hide Stream, Awake, Pending;
      AtRest();
      ghost var before, accepted0, delivered0 := Pending(buffer[..], head, tail), accepted, delivered;
      result := [];
      r := StartRead(size, blocking);
      if size < EVENT_SIZE { return; }
      var ended := false;
      while !ended && at != Asleep
        invariant Valid() && accepted == accepted0 && this.blocking == blocking && ended == (at == Idle)
        invariant delivered == delivered0 + result && (ended && blocking ==> result != [])
        invariant !ended ==> result == [] && room == size - 8 * |out| && room >= if InEvent(at) then 8 else 0
        invariant at == Asleep ==> blocking && out == [] && head == tail
        invariant ended ==> 8 * |result| <= size && (size < 8 * |result| + 8 || head == tail)
        decreases if ended then 0 else 1 + room,
                  match at case Look => 4 case Copy => 3 case Move => 2 case Note => 1 case _ => 0
      {
        ended, result := ReadStep();
      }
      AtRest();
      ReadSoFar(before, delivered0, result, accepted, buffer[..], head, tail);
      r := |result|;
    }

    lemma AtRest()
      requires Valid()
      ensures |buffer[..]| == 32 && head < 32 && tail < 32 && |Pending(buffer[..], head, tail)| <= 31
      ensures at == Idle || (at == Asleep && out == []) ==> accepted == delivered + Pending(buffer[..], head, tail)
    {
      assert at == Idle ==> out == [];
      assert delivered + [] == delivered;
    }

    /** Any interleaving of posts with the statements of reads, one read after the other: the events
        accepted are the events read followed by those pending, at most 31 are pending, and the
        overflow count is the number of posts that were dropped. */
    method Run(steps: seq<Step>) returns (read: seq<Event>, posted: nat)
      requires Valid() && at == Idle && delivered == [] && accepted == [] && dropped == 0
      modifies this, buffer
      ensures Valid() && |Pending(buffer[..], head, tail)| <= 31
      ensures at == Idle ==> accepted == read + Pending(buffer[..], head, tail)
      ensures posted == |accepted| + overflowCount
    {
      read, posted := [], 0;
      for k := 0 to |steps|
        invariant Valid() && read == delivered && posted == |accepted| + overflowCount
      {
        match steps[k] {
          case PostStep(e) =>
            if !interruptsBlocked {
              Post(e);
              posted := posted + 1;
            }
          case StartStep(size, blocking) =>
            if at == Idle { var r := StartRead(size, blocking); }
          case StatementStep =>
            if at != Idle && at != Asleep {
              var ended, result := ReadStep();
              if ended { read := read + result; }
            }
        }
      }
      AtRest();
    }
  }

  datatype Step = PostStep(e: Event) | StartStep(size: int, blocking: bool) | StatementStep
}
