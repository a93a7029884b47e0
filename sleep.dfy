/**
 * The `sleep` and `wakeup` commands of src/commands/sleep.rs, which share
 * one slot holding the instant of the pending wake-up.
 */
module Sleep {
  import opened Wrappers
  import opened ByteStrings
  import opened Hooks
  import opened MessageQueue
  import opened Events

  /** `N`: the instant of the pending wake-up, if any. */
  class Slot {
    var n: Option<int>

    constructor ()
      ensures n == None
    {
      n := None;
    }
  }

  const U64Limit: nat := 0x1_0000_0000_0000_0000

  /** The bytes after an optional leading `+`. */
  function Unsigned(s: Bytes): Bytes {
    if |s| > 0 && s[0] == '+' then s[1..] else s
  }

  /**
   * `str::parse::<u64>`: an optional `+`, then one or more decimal digits
   * whose value fits in 64 bits.
   */
  function ParseU64(s: Bytes): (r: Option<nat>)
    ensures r.Some? ==> r.value < U64Limit
  {
    var d := Unsigned(s);
    if |d| == 0 || !All(d, IsDigit) then None
    else if DigitsValue(d) < U64Limit then Some(DigitsValue(d))
    else None
  }

  /** Every 64-bit number, printed in decimal with or without a `+`, parses back to itself. */
  lemma ParseU64Decimal(n: nat)
    requires n < U64Limit
    ensures ParseU64(Decimal(n)) == Some(n)
    ensures ParseU64("+" + Decimal(n)) == Some(n)
  {
    DecimalRoundTrip(n);
    assert Unsigned(Decimal(n)) == Decimal(n) by {
      assert IsDigit(Decimal(n)[0]);
    }
    assert Unsigned("+" + Decimal(n)) == Decimal(n);
  }

  /** A byte other than a digit, anywhere but a leading `+`, makes the parse fail. */
  lemma ParseU64Rejects(s: Bytes, i: nat)
    requires i < |s| && !IsDigit(s[i]) && !(i == 0 && s[i] == '+')
    ensures ParseU64(s) == None
  {
    var d := Unsigned(s);
    if |s| > 0 && s[0] == '+' {
      assert d[i - 1] == s[i];
    } else {
      assert d[i] == s[i];
    }
  }

  /** `Duration::new(i, 0)` in nanoseconds. */
  function Seconds(i: nat): nat { i * 1_000_000_000 }

  const NotANumber: Bytes := "That doesn't look like a number."
  const WakingUp: Bytes := "Waking up!"
  const Awake: Bytes := "Ok, I'm awake!"
  const NotSleeping: Bytes := "I wasn't sleeping!"

  /** The reply to a number of seconds. */
  function Sleeping(i: nat): Bytes {
    "Sleeping for " + (Decimal(i) + " seconds. ZZZzzz...")
  }

  /** The text src/commands/sleep.rs reads its number from: the message from byte 7 on, the length of `!sleep `. */
  function ArgumentAsWritten(message: Bytes): (r: Bytes)
    requires |message| >= 7
    ensures |r| + 7 == |message|
    ensures StartsWith(message, Triggers[0] + "sleep ") ==> message == Triggers[0] + "sleep " + r
  {
    message[7..]
  }

  /**
   * Under the other trigger the offset is wrong: `participle: sleep 5` is
   * read from `ple: sleep 5`, which is not a number, although the intended
   * reading finds the 5.
   */
  lemma SleepAsWrittenAddressed(n: nat)
    requires n < U64Limit
    ensures var message := "participle: sleep " + Decimal(n);
      && ParseU64(ArgumentAsWritten(message)) == None
      && |message| >= Offset(message) && ParseU64(Argument(message)) == Some(n)
  {
    var message := "participle: sleep " + Decimal(n);
    assert ArgumentAsWritten(message)[0] == 'p';
    ParseU64Rejects(ArgumentAsWritten(message), 0);
    assert StartsWith(message, Triggers[1]);
    assert Argument(message) == Decimal(n);
    ParseU64Decimal(n);
  }

  /** Where the number starts: after whichever trigger the message opens with, the word `sleep` and a space. */
  function Offset(message: Bytes): nat {
    TriggerLength(message) + 6
  }

  /** The evidently intended text to read the number from: what follows the command, whichever trigger introduced it. */
  function Argument(message: Bytes): Bytes
    requires |message| >= Offset(message)
  {
    message[Offset(message)..]
  }

  /** On messages under the `!` trigger the correction changes nothing: both guards and both readings agree. */
  lemma ArgumentAgrees(message: Bytes)
    requires StartsWith(message, Triggers[0])
    ensures Offset(message) == 7
    ensures |message| >= 7 ==> Argument(message) == ArgumentAsWritten(message)
  {
    assert !StartsWith(message, Triggers[1]) by {
      assert message[0] == '!';
    }
  }

  /**
   * `sleep`, reading its number after the command under either trigger. A
   * message that ends before the space after `sleep` is ignored. Otherwise, if the
   * rest is not a number the sender is told so and the slot keeps its value;
   * for a number of seconds the bot says it is sleeping, schedules the
   * wake-up that many seconds later and remembers its instant, overwriting
   * (without cancelling) any wake-up still pending.
   */
  method Sleep(ev: Event, slot: Slot, mq: MQ, now: int) returns (r: seq<Hook>)
    requires mq.Valid()
    modifies slot, mq
    ensures r == [] && mq.Valid()
    ensures |ev.message| < Offset(ev.message) ==> slot.n == old(slot.n) && mq.heap == old(mq.heap) && mq.timeout == old(mq.timeout)
    ensures |ev.message| >= Offset(ev.message) && ParseU64(Argument(ev.message)).None? ==>
              && slot.n == old(slot.n)
              && mq.heap == old(mq.heap) + multiset{Countdown(now, Mk(ev, NotANumber))}
    ensures |ev.message| >= Offset(ev.message) && ParseU64(Argument(ev.message)).Some? ==>
              var i := ParseU64(Argument(ev.message)).value;
              && slot.n == Some(now + Seconds(i))
              && mq.heap == old(mq.heap) + multiset{Countdown(now, Mk(ev, Sleeping(i))), Countdown(now + Seconds(i), Mk(ev, WakingUp))}
  {
    var k := TriggerLength(ev.message) + 6;
    if |ev.message| < k {
      return [];
    }
    var parsed := ParseU64(ev.message[k..]);
    if parsed.Some? {
      var i := parsed.value;
      var d := Seconds(i);
      ghost var before := mq.heap;
      var _ := Respond(ev, Sleeping(i), mq, now);
      var at := RespondIn(ev, WakingUp, d, mq, now);
      slot.n := Some(at);
      assert mq.heap == before + multiset{Countdown(now, Mk(ev, Sleeping(i))), Countdown(now + Seconds(i), Mk(ev, WakingUp))} by {
        assert multiset{Countdown(now, Mk(ev, Sleeping(i))), Countdown(now + Seconds(i), Mk(ev, WakingUp))}
            == multiset{Countdown(now, Mk(ev, Sleeping(i)))} + multiset{Countdown(now + Seconds(i), Mk(ev, WakingUp))};
      }
    } else {
      var _ := Respond(ev, NotANumber, mq, now);
    }
    r := [];
  }

  /**
   * `wakeup`. With a wake-up pending, the slot is cleared, a queued packet
   * due at that instant is cancelled if there is one, and the bot says it is
   * awake; otherwise it says it was not sleeping. The slot is empty after
   * either.
   */
  method Wakeup(ev: Event, slot: Slot, mq: MQ, now: int) returns (r: seq<Hook>, ghost cancelled: Option<Countdown>)
    requires mq.Valid()
    modifies slot, mq
    ensures r == [] && slot.n == None && mq.Valid()
    ensures old(slot.n).None? ==> cancelled == None && mq.heap == old(mq.heap) + multiset{Countdown(now, Mk(ev, NotSleeping))}
    ensures old(slot.n).Some? && cancelled.None? ==>
              && (forall c | c in old(mq.heap) :: c.stamp != old(slot.n).value)
              && mq.heap == old(mq.heap) + multiset{Countdown(now, Mk(ev, Awake))}
    ensures old(slot.n).Some? && cancelled.Some? ==>
              && cancelled.value in old(mq.heap) && cancelled.value.stamp == old(slot.n).value
              && mq.heap == old(mq.heap) - multiset{cancelled.value} + multiset{Countdown(now, Mk(ev, Awake))}
  {
    cancelled := None;
    var pending := slot.n;
    if pending.Some? {
      slot.n := None;
      var taken := Cancel(ev, pending.value, mq, now);
      if taken.Some? {
        cancelled := Some(Countdown(pending.value, taken.value));
      }
      var _ := Respond(ev, Awake, mq, now);
    } else {
      var _ := Respond(ev, NotSleeping, mq, now);
    }
    r := [];
  }
}
