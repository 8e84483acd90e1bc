/** The keyboard ring buffer, filled by the keyboard interrupt and emptied by the clock tick. */
module Keyboards {
  import opened Layout

  const KB_BUFFER_SIZE := 16

  datatype KeyEvent = KeyEvent(scancode: int, pressed: bool)

  /** What the interrupt stores for a raw byte: bit 7 tells a release from a press. */
  function Decode(c: Byte): KeyEvent {
    if c >= 0x80 then KeyEvent(c - 0x80, false) else KeyEvent(c, true)
  }

  /** The stored event determines the raw byte. */
  lemma DecodeIsInjective(c: Byte, d: Byte)
    ensures Decode(c) == Decode(d) <==> c == d
  {
  }

  /** A byte below 0x80 is a press of that code, any other a release of the code without bit 7. */
  lemma DecodeMeans(c: Byte)
    ensures Decode(c) == if c < 0x80 then KeyEvent(c, true) else KeyEvent(c - 0x80, false)
  {
  }

  datatype Interrupt = Key(raw: Byte) | Clock

  /** A bounded first-in first-out queue with room for 15 events. */
  function QueueAfter(q: seq<KeyEvent>, i: Interrupt): seq<KeyEvent> {
    match i
    case Key(c) => if |q| < KB_BUFFER_SIZE - 1 then q + [Decode(c)] else q
    case Clock => if q == [] then q else q[1..]
  }

  /** The events from index `tail` up to `head`, around the end of the array. */
  function Between(es: seq<KeyEvent>, tail: int, head: int): seq<KeyEvent>
    requires |es| == KB_BUFFER_SIZE && 0 <= tail < KB_BUFFER_SIZE && 0 <= head < KB_BUFFER_SIZE
  {
    if tail <= head then es[tail..head] else es[tail..] + es[..head]
  }

  function Following(i: int): int { if i == KB_BUFFER_SIZE - 1 then 0 else i + 1 }

  /** The index after `head` is `tail` exactly when 15 events are pending; otherwise the event put
      at `head` becomes the last one. */
  lemma BetweenPut(es: seq<KeyEvent>, tail: int, head: int, e: KeyEvent)
    requires |es| == KB_BUFFER_SIZE && 0 <= tail < KB_BUFFER_SIZE && 0 <= head < KB_BUFFER_SIZE
    ensures (head + 1) % KB_BUFFER_SIZE == Following(head)
    ensures Following(head) == tail <==> |Between(es, tail, head)| == KB_BUFFER_SIZE - 1
    ensures |Between(es, tail, head)| < KB_BUFFER_SIZE
    ensures Following(head) != tail ==> Between(es[head := e], tail, Following(head)) == Between(es, tail, head) + [e]
  {
  }

  lemma BetweenGet(es: seq<KeyEvent>, tail: int, head: int)
    requires |es| == KB_BUFFER_SIZE && 0 <= tail < KB_BUFFER_SIZE && 0 <= head < KB_BUFFER_SIZE
    ensures (tail + 1) % KB_BUFFER_SIZE == Following(tail)
    ensures head == tail <==> Between(es, tail, head) == []
    ensures head != tail ==> Between(es, tail, head) == [es[tail]] + Between(es, Following(tail), head)
  {
    if head < tail {
      assert es[tail..] == [es[tail]] + es[tail + 1..];
    }
  }

  class KeyboardBuffer {
    const events: array<KeyEvent>
    var head: int
    var tail: int

    ghost predicate Valid() {
      events.Length == KB_BUFFER_SIZE
    }

    ghost predicate InRange()
      reads this
    {
      0 <= head < KB_BUFFER_SIZE && 0 <= tail < KB_BUFFER_SIZE
    }

    /** The pending events, oldest first. */
    ghost function Pending(): seq<KeyEvent>
      requires Valid() && InRange()
      reads this, events
    {
      Between(events[..], tail, head)
    }

    /** The buffer is a global: `keyboard_init` sets the indices, the events stay as they are. */
    constructor ()
      ensures Valid() && InRange() && Pending() == [] && fresh(events)
    {
      events := new KeyEvent[KB_BUFFER_SIZE](_ => KeyEvent(0, false));
      head, tail := 0, 0;
    }

    /** `keyboard_routine` for the byte `raw` read from the port: the event is dropped exactly
        when 15 events are pending. */
    method KeyboardRoutine(raw: Byte)
      requires Valid() && InRange()
      modifies `head, events
      ensures InRange() && Pending() == QueueAfter(old(Pending()), Key(raw))
    {
      var c := raw;
      var make := true;
      if c >= 0x80 {
        make := false;
        c := c - 0x80;
      }
      var nextHead := (head + 1) % KB_BUFFER_SIZE;
      BetweenPut(events[..], tail, head, KeyEvent(c, make));
      if nextHead != tail {
        events[head] := KeyEvent(c, make);
        head := nextHead;
      }
    }

    /** The consumer in `clock_routine`. */
    method Consume() returns (taken: seq<KeyEvent>)
      requires Valid() && InRange()
      modifies `tail
      ensures InRange() && Pending() == QueueAfter(old(Pending()), Clock)
      ensures taken == Leaving(old(Pending()), Clock)
    {
      taken := [];
      BetweenGet(events[..], tail, head);
      if head != tail {
        taken := [events[tail]];
        tail := (tail + 1) % KB_BUFFER_SIZE;
      }
    }

    method ServeOne(i: Interrupt) returns (taken: seq<KeyEvent>)
      requires Valid() && InRange()
      modifies `head, `tail, events
      ensures InRange() && Pending() == QueueAfter(old(Pending()), i) && taken == Leaving(old(Pending()), i)
    {
      taken := [];
      match i
      case Key(raw) => KeyboardRoutine(raw);
      case Clock => taken := Consume();
    }

    /** Any series of key interrupts and ticks on the ring: the consumed events and then the pending
        ones are those pending before and then the accepted ones, in order. */
    method Serve(es: seq<Interrupt>) returns (taken: seq<KeyEvent>)
      requires Valid() && InRange()
      modifies `head, `tail, events
      ensures InRange()
      ensures taken == Consumed(old(Pending()), es) && Pending() == QueueAfterAll(old(Pending()), es)
      ensures taken + Pending() == old(Pending()) + Accepted(old(Pending()), es)
    {
      ghost var before := Pending();
      BetweenPut(events[..], tail, head, KeyEvent(0, false));
      NothingLost(before, es);
      taken := [];
      for k := 0 to |es|
        invariant InRange() && SameRun(before, es, taken, Pending(), k)
      {
        RunOn(before, es, taken, Pending(), k);
        var first := ServeOne(es[k]);
        taken := taken + first;
      }
    }
  }

  // ----- whole runs

  function QueueAfterAll(q: seq<KeyEvent>, es: seq<Interrupt>): seq<KeyEvent>
    decreases |es|
  {
    if es == [] then q else QueueAfterAll(QueueAfter(q, es[0]), es[1..])
  }

  /** The event that an interrupt adds, unless it is dropped. */
  function Arriving(q: seq<KeyEvent>, i: Interrupt): seq<KeyEvent> {
    if i.Key? && |q| < KB_BUFFER_SIZE - 1 then [Decode(i.raw)] else []
  }

  /** The event that a tick takes out, if there is one. */
  function Leaving(q: seq<KeyEvent>, i: Interrupt): seq<KeyEvent> {
    if i.Clock? && q != [] then [q[0]] else []
  }

  /** The events of a run that were not dropped, in order of arrival. */
  function Accepted(q: seq<KeyEvent>, es: seq<Interrupt>): seq<KeyEvent>
    decreases |es|
  {
    if es == [] then [] else Arriving(q, es[0]) + Accepted(QueueAfter(q, es[0]), es[1..])
  }

  /** The events that the ticks of a run took out, in order. */
  function Consumed(q: seq<KeyEvent>, es: seq<Interrupt>): seq<KeyEvent>
    decreases |es|
  {
    if es == [] then [] else Leaving(q, es[0]) + Consumed(QueueAfter(q, es[0]), es[1..])
  }

  /** After `k` interrupts of a run, `taken` has been consumed and `q` is pending. */
  ghost predicate SameRun(before: seq<KeyEvent>, es: seq<Interrupt>, taken: seq<KeyEvent>, q: seq<KeyEvent>, k: nat) {
    && k <= |es| && QueueAfterAll(before, es) == QueueAfterAll(q, es[k..])
    && Consumed(before, es) == taken + Consumed(q, es[k..])
  }

  lemma RunOn(before: seq<KeyEvent>, es: seq<Interrupt>, taken: seq<KeyEvent>, q: seq<KeyEvent>, k: nat)
    requires k < |es| && SameRun(before, es, taken, q, k)
    ensures SameRun(before, es, taken + Leaving(q, es[k]), QueueAfter(q, es[k]), k + 1)
  {
    assert es[k..][1..] == es[k + 1..];
    Regroup(taken, Leaving(q, es[k]), Consumed(QueueAfter(q, es[k]), es[k + 1..]));
  }

  /** An interrupt adds its event at the end while fewer than 15 are pending and is dropped otherwise; a
      tick takes the first one. */
  lemma QueueSteps(q: seq<KeyEvent>, c: Byte)
    ensures |q| < 15 ==> QueueAfter(q, Key(c)) == q + [KeyEvent(c % 0x80, c < 0x80)]
    ensures |q| >= 15 ==> QueueAfter(q, Key(c)) == q
    ensures q != [] ==> Leaving(q, Clock) == [q[0]] && QueueAfter(q, Clock) == q[1..]
    ensures q == [] ==> Leaving(q, Clock) == [] && QueueAfter(q, Clock) == []
  {
    DecodeMeans(c);
  }

  lemma StepBalance(q: seq<KeyEvent>, i: Interrupt)
    requires |q| < KB_BUFFER_SIZE
    ensures q + Arriving(q, i) == Leaving(q, i) + QueueAfter(q, i) && |QueueAfter(q, i)| < KB_BUFFER_SIZE
  {
  }

  lemma Regroup<T>(a: seq<T>, b: seq<T>, c: seq<T>)
    ensures a + (b + c) == (a + b) + c
  {
  }

  /** Under any interleaving of key interrupts and ticks nothing accepted is lost, repeated or
      reordered, and at most 15 events are ever pending. */
  lemma {:induction false} NothingLost(q: seq<KeyEvent>, es: seq<Interrupt>)
    requires |q| < KB_BUFFER_SIZE
    ensures q + Accepted(q, es) == Consumed(q, es) + QueueAfterAll(q, es)
    ensures |QueueAfterAll(q, es)| < KB_BUFFER_SIZE
    decreases |es|
  {
    if es != [] {
      var r := QueueAfter(q, es[0]);
      StepBalance(q, es[0]);
      NothingLost(r, es[1..]);
      Regroup(q, Arriving(q, es[0]), Accepted(r, es[1..]));
      Regroup(Leaving(q, es[0]), r, Accepted(r, es[1..]));
      Regroup(Leaving(q, es[0]), Consumed(r, es[1..]), QueueAfterAll(r, es[1..]));
    }
  }
}
