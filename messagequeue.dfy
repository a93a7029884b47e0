/**
 * The outbound delivery queue of src/messagequeue.rs: packets waiting for
 * their instant in a binary heap, and one timer armed for the earliest of
 * them. Instants are integers on the monotonic clock (nanoseconds); every
 * operation is handed the clock reading `now` it would take itself. The
 * timer is modelled by the delay it was armed with; what polling it reports
 * is a parameter of `Poll`.
 */
module MessageQueue {
  import opened Wrappers
  import opened Packet

  /** `Countdown<Message>`: a packet and the instant it is due. */
  datatype Countdown = Countdown(stamp: int, value: Message)

  datatype Ordering = Less | Equal | Greater

  /** `PartialEq for Countdown`: the packet plays no part. */
  predicate SameStamp(a: Countdown, b: Countdown) { a.stamp == b.stamp }

  /** `Ord for Countdown`: the stamps, compared the other way round. */
  function Cmp(a: Countdown, b: Countdown): (o: Ordering)
    ensures o == Greater <==> a.stamp < b.stamp
    ensures o == Less <==> b.stamp < a.stamp
    ensures o == Equal <==> SameStamp(a, b)
  {
    if b.stamp < a.stamp then Less else if b.stamp == a.stamp then Equal else Greater
  }

  /** `BinaryHeap::peek` and `pop` yield a greatest entry under `Cmp`. */
  predicate IsTop(c: Countdown, h: multiset<Countdown>) {
    c in h && forall d | d in h :: Cmp(c, d) != Less
  }

  /** Because the comparison is reversed, the top of the heap is an entry with the earliest stamp. */
  lemma TopIsEarliest(c: Countdown, h: multiset<Countdown>)
    ensures IsTop(c, h) <==> c in h && forall d | d in h :: c.stamp <= d.stamp
  {
    if c in h && forall d | d in h :: c.stamp <= d.stamp {
      forall d | d in h ensures Cmp(c, d) != Less {
        assert c.stamp <= d.stamp;
      }
    }
  }

  /** A heap that is not empty has a top. */
  lemma {:induction false} TopExists(h: multiset<Countdown>)
    requires |h| > 0
    ensures exists c :: IsTop(c, h)
    decreases |h|
  {
    var x :| x in h;
    var t := h - multiset{x};
    assert h == t + multiset{x};
    if |t| == 0 {
      assert t == multiset{};
      assert IsTop(x, h);
    } else {
      TopExists(t);
      var y :| IsTop(y, t);
      if x.stamp < y.stamp {
        assert IsTop(x, h);
      } else {
        assert IsTop(y, h);
      }
    }
  }

  /** The stamp of the top of a non-empty heap: every top has it. */
  ghost function Soonest(h: multiset<Countdown>): (t: int)
    requires |h| > 0
    ensures forall c | IsTop(c, h) :: c.stamp == t
    ensures exists c :: IsTop(c, h) && c.stamp == t
  {
    TopExists(h);
    var c :| IsTop(c, h);
    c.stamp
  }

  /**
   * What `reschedule` arms the timer with: nothing for an empty heap,
   * otherwise the time left until the soonest stamp, and zero once it has passed.
   */
  ghost function Delay(h: multiset<Countdown>, now: int): (d: Option<nat>)
    ensures d.None? <==> |h| == 0
    ensures d.Some? ==> now + d.value >= Soonest(h)
    ensures d.Some? && d.value > 0 ==> now + d.value == Soonest(h)
  {
    if |h| == 0 then None
    else if Soonest(h) < now then Some(0)
    else Some(Soonest(h) - now)
  }

  /** `futures::Async` */
  datatype Async<T> = Ready(T) | NotReady

  /** What polling the armed timer reports. */
  datatype TimerPoll = Fired | Waiting | TimerError

  /** `MQ`, shared by the bot through `MessageQueue`. */
  class MQ {
    var heap: multiset<Countdown>
    /** `timeout`: the delay the timer was last armed with, if it is armed. */
    var timeout: Option<nat>

    /** A timer is armed exactly while there is something to deliver. */
    ghost predicate Valid()
      reads this
    {
      timeout.Some? <==> |heap| > 0
    }

    /** `MQ::new` */
    constructor ()
      ensures Valid()
      ensures heap == multiset{} && timeout == None
    {
      heap := multiset{};
      timeout := None;
    }

    /** `reschedule`: re-arms the timer for the current top of the heap. */
    method Reschedule(now: int)
      modifies this
      ensures heap == old(heap)
      ensures timeout == Delay(heap, now)
      ensures Valid()
    {
      if |heap| == 0 {
        timeout := None;
      } else {
        TopExists(heap);
        var soonest :| IsTop(soonest, heap);
        timeout := Some(if soonest.stamp < now then 0 else soonest.stamp - now);
      }
    }

    /** `schedule_at`: adds exactly one entry and re-arms the timer. */
    method ScheduleAt(msg: Message, ins: int, now: int)
      modifies this
      ensures heap == old(heap) + multiset{Countdown(ins, msg)}
      ensures timeout == Delay(heap, now)
      ensures Valid()
    {
      heap := heap + multiset{Countdown(ins, msg)};
      Reschedule(now);
    }

    /** `push`: due at once. */
    method Push(msg: Message, now: int)
      modifies this
      ensures heap == old(heap) + multiset{Countdown(now, msg)}
      ensures timeout == Delay(heap, now)
      ensures Valid()
    {
      ScheduleAt(msg, now, now);
    }

    /** `schedule`: due `d` from now. */
    method Schedule(msg: Message, d: nat, now: int)
      modifies this
      ensures heap == old(heap) + multiset{Countdown(now + d, msg)}
      ensures timeout == Delay(heap, now)
      ensures Valid()
    {
      ScheduleAt(msg, now + d, now);
    }

    /**
     * `poll`. Without a timer, or while the timer has not fired, nothing
     * changes. When it fires, the top of the heap is removed and delivered and
     * the timer is armed for the next one; `Valid` rules out the panic on an
     * empty heap.
     */
    method Poll(timer: TimerPoll, now: int) returns (r: Result<Async<Option<Message>>, ()>, ghost popped: Countdown)
      requires Valid()
      modifies this
      ensures Valid()
      ensures old(timeout).None? ==> r == Ok(NotReady) && heap == old(heap) && timeout == old(timeout)
      ensures old(timeout).Some? && timer == Waiting ==> r == Ok(NotReady) && heap == old(heap) && timeout == old(timeout)
      ensures old(timeout).Some? && timer == TimerError ==> r == Err(()) && heap == old(heap) && timeout == old(timeout)
      ensures old(timeout).Some? && timer == Fired ==>
                && IsTop(popped, old(heap))
                && heap == old(heap) - multiset{popped}
                && r == Ok(Ready(Some(popped.value)))
                && timeout == Delay(heap, now)
    {
      popped := Countdown(0, Message([], None, map[], None));
      if timeout.None? {
        r := Ok(NotReady);
      } else {
        match timer
        case Fired =>
          TopExists(heap);
          var soonest :| IsTop(soonest, heap);
          heap := heap - multiset{soonest};
          popped := soonest;
          r := Ok(Ready(Some(soonest.value)));
          Reschedule(now);
        case Waiting =>
          r := Ok(NotReady);
        case TimerError =>
          r := Err(());
      }
    }

    /**
     * `unschedule`, which src/event.rs calls to cancel a reply: removes one
     * entry due at `i`, if there is one, and re-arms the timer. Since entries
     * are told apart by stamp only, which of several entries due at `i` goes
     * is not determined.
     */
    method Unschedule(i: int, now: int) returns (r: Option<Message>)
      requires Valid()
      modifies this
      ensures Valid()
      ensures r.None? ==> (forall c | c in old(heap) :: c.stamp != i) && heap == old(heap) && timeout == old(timeout)
      ensures r.Some? ==>
                && Countdown(i, r.value) in old(heap)
                && heap == old(heap) - multiset{Countdown(i, r.value)}
                && timeout == Delay(heap, now)
    {
      if c :| c in heap && c.stamp == i {
        heap := heap - multiset{c};
        r := Some(c.value);
        Reschedule(now);
      } else {
        r := None;
      }
    }
  }

  /** `cs` is what successive pops of `h` deliver when nothing is added in between. */
  ghost predicate Drains(h: multiset<Countdown>, cs: seq<Countdown>)
    decreases |cs|
  {
    cs == [] || (IsTop(cs[0], h) && Drains(h - multiset{cs[0]}, cs[1..]))
  }

  /** Popping as many times as there are entries delivers each entry exactly once. */
  lemma {:induction false} DrainsWithin(h: multiset<Countdown>, cs: seq<Countdown>)
    requires Drains(h, cs)
    ensures multiset(cs) <= h
    ensures |cs| == |h| ==> multiset(cs) == h
  {
    if cs != [] {
      var t := h - multiset{cs[0]};
      DrainsWithin(t, cs[1..]);
      assert multiset(cs) == multiset(cs[1..]) + multiset{cs[0]} by {
        assert cs == [cs[0]] + cs[1..];
      }
      assert h == t + multiset{cs[0]} && |t| == |h| - 1;
      assert |cs[1..]| == |cs| - 1;
    }
  }

  /** Delivery order: whatever order the entries went in, pops deliver them in non-decreasing stamp order. */
  lemma {:induction false} DrainsSorted(h: multiset<Countdown>, cs: seq<Countdown>)
    requires Drains(h, cs)
    ensures forall i, j | 0 <= i < j < |cs| :: cs[i].stamp <= cs[j].stamp
  {
    if cs != [] {
      var t := h - multiset{cs[0]};
      var tail := cs[1..];
      DrainsSorted(t, tail);
      DrainsWithin(t, tail);
      TopIsEarliest(cs[0], h);
      forall i, j | 0 <= i < j < |cs| ensures cs[i].stamp <= cs[j].stamp {
        assert cs[j] == tail[j - 1];
        if i == 0 {
          assert cs[j] in multiset(tail);
          assert cs[j] in h;
        } else {
          assert cs[i] == tail[i - 1];
        }
      }
    }
  }

  /** A queue may be drained completely, one pop at a time. */
  lemma {:induction false} DrainExists(h: multiset<Countdown>) returns (cs: seq<Countdown>)
    ensures Drains(h, cs) && |cs| == |h|
    decreases |h|
  {
    if |h| == 0 {
      cs := [];
    } else {
      TopExists(h);
      var c :| IsTop(c, h);
      var rest := DrainExists(h - multiset{c});
      cs := [c] + rest;
      assert cs[1..] == rest;
    }
  }
}
