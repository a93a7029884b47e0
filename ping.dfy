/**
 * The `ping` command of src/commands/ping.rs: it rings, and a one-shot
 * message hook answers the echoed ring with the round-trip time.
 */
module Ping {
  import opened ByteStrings
  import opened Hooks
  import opened MessageQueue
  import opened Events

  /** U+1F514 (a bell) in UTF-8. */
  const Bell: Bytes := ['\U{F0}', '\U{9F}', '\U{94}', '\U{94}']

  /** What `ping` says, and what its hook waits to see said back. */
  function Ring(): Bytes { Bell + "?" }

  /** The answer, with the elapsed milliseconds. */
  function Answer(ms: nat): Bytes { Bell + ("! (" + (Decimal(ms) + "ms)")) }

  const NanosPerMilli: nat := 1_000_000

  /** `Instant - Instant`, which stops at zero when the later reading is the smaller. */
  function Gap(sent: int, now: int): nat { if now < sent then 0 else now - sent }

  /**
   * The milliseconds reported: the sub-second nanoseconds divided by a
   * million plus the whole seconds times a thousand, which is the whole
   * duration in milliseconds, rounded down.
   */
  function ElapsedMs(d: nat): (ms: nat)
    ensures ms == d / NanosPerMilli
    ensures ms * NanosPerMilli <= d < (ms + 1) * NanosPerMilli
  {
    var secs := d / NanosPerSecond;
    var sub := d % NanosPerSecond;
    assert d == secs * 1000 * NanosPerMilli + sub;
    sub / NanosPerMilli + secs * 1000
  }

  /** The updates of the hook: it removes itself once it has answered. */
  function ReplyBatch(m: M, message: Bytes): seq<Hook> {
    if message == Ring() then [DropMessage(m)] else []
  }

  /** The hook `ping` registers, built with its own handle `m` and the instant `sent` of the ring. */
  method PingReply(m: M, sent: int, ev: Event, mq: MQ, now: int) returns (r: seq<Hook>)
    requires mq.Valid()
    modifies mq
    ensures r == ReplyBatch(m, ev.message) && mq.Valid()
    ensures ev.message == Ring() ==>
              mq.heap == old(mq.heap) + multiset{Countdown(now, Mk(ev, Answer(ElapsedMs(Gap(sent, now)))))}
    ensures ev.message != Ring() ==> mq.heap == old(mq.heap) && mq.timeout == old(mq.timeout)
  {
    if ev.message == Ring() {
      var diff := if now < sent then 0 else now - sent;
      var ms := (diff % NanosPerSecond) / NanosPerMilli + (diff / NanosPerSecond) * 1000;
      assert ms == ElapsedMs(diff);
      var _ := Respond(ev, Answer(ms), mq, now);
      return [Unregister(m)];
    }
    r := [];
  }

  /** The updates of `ping` when the counter stands at `n`: the hook, under a fresh handle. */
  function PingBatch(n: nat, sent: int): seq<Hook> {
    [AddMessage(M(n), Hooks.PingReply(M(n), sent))]
  }

  /** `ping`: rings at once and registers the hook with the instant of the ring. */
  method Ping(ev: Event, u: Unique, mq: MQ, now: int) returns (r: seq<Hook>)
    requires u.Valid()
    modifies u, mq
    ensures u.Valid() && u.next == old(u.next) + 1
    ensures r == PingBatch(old(u.next), now)
    ensures mq.heap == old(mq.heap) + multiset{Countdown(now, Mk(ev, Ring()))} && mq.Valid()
  {
    var _ := Respond(ev, Ring(), mq, now);
    var t := now;
    var h := RegisterMsg(u, m => Hooks.PingReply(m, t));
    r := [h];
  }

  /**
   * The hook is one-shot: registering it on a registry whose handles were
   * drawn before `n` and then applying what it returns for the echoed ring
   * gives back the registry it started from; any other message leaves it
   * in place.
   */
  lemma PingOneShot(r: Registry, n: nat, sent: int, other: Bytes)
    requires Below(r, n) && other != Ring()
    ensures var s := Applied(r, PingBatch(n, sent));
      && M(n) in s.msg && s.msg[M(n)] == Plain(Hooks.PingReply(M(n), sent))
      && Applied(s, ReplyBatch(M(n), other)) == s
      && Applied(s, ReplyBatch(M(n), Ring())) == r
  {
    var s := Applied(r, PingBatch(n, sent));
    AppliedOne(r, AddMessage(M(n), Hooks.PingReply(M(n), sent)));
    AppliedOne(s, DropMessage(M(n)));
    assert M(n) !in r.msg;
    assert s.msg - {M(n)} == r.msg;
  }
}
