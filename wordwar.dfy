/**
 * The `wordwar` command of src/commands/wordwar.rs: `at :<minute> for
 * <minutes>` schedules the start and the end of a writing sprint, records
 * the war, and opens an `in` command for joining it until it starts.
 */
module WordWar {
  import opened Wrappers
  import opened ByteStrings
  import opened Nom
  import opened Hooks
  import opened MessageQueue
  import opened Events

  const U32Limit: nat := 0x1_0000_0000

  /** `dec`: a run of digits read as a `u32`; a value that does not fit is an error. */
  function Dec(s: Bytes): (r: IResult<nat>)
    ensures r.Done? ==> r.value < U32Limit
    ensures r.Incomplete? <==> s == []
  {
    match TakeWhile1(s, IsDigit)
    case Done(rest, d) => if DigitsValue(d) < U32Limit then Done(rest, DigitsValue(d)) else Error
    case Error => Error
    case Incomplete => Incomplete
  }

  /** A number printed in decimal is read back by `dec`, up to the first byte that is not a digit. */
  lemma DecOf(n: nat, rest: Bytes)
    requires n < U32Limit && (rest == [] || !IsDigit(rest[0]))
    ensures Dec(Decimal(n) + rest) == Done(rest, n)
  {
    DecimalRoundTrip(n);
    if rest == [] {
      assert Decimal(n) + rest == Decimal(n);
      TakeWhile1All(Decimal(n), IsDigit);
    } else {
      TakeWhile1Split(Decimal(n), rest, IsDigit);
    }
  }

  /** The two literals of the request, `at :` and ` for `. */
  const AtTag: Bytes := "at :"
  const ForTag: Bytes := " for "

  /** `parse_ww`: `at :`, a minute, ` for `, a number of minutes. */
  function ParseWw(s: Bytes): (r: IResult<(nat, nat)>)
    ensures r.Done? ==> r.value.0 < U32Limit && r.value.1 < U32Limit
  {
    var a :- Tag(s, AtTag);
    var at :- Dec(a.rest);
    var f :- Tag(at.rest, ForTag);
    var dur :- Dec(f.rest);
    Done(dur.rest, (at.value, dur.value))
  }

  /** The request written out in full is read back, whatever follows the second number. */
  lemma ParseWwOf(at: nat, dur: nat, rest: Bytes)
    requires at < U32Limit && dur < U32Limit && (rest == [] || !IsDigit(rest[0]))
    ensures ParseWw(AtTag + (Decimal(at) + (ForTag + (Decimal(dur) + rest)))) == Done(rest, (at, dur))
  {
    var tail := ForTag + (Decimal(dur) + rest);
    TaggedNumber(AtTag, at, tail);
    TaggedNumber(ForTag, dur, rest);
    ParseWwSteps(AtTag + (Decimal(at) + tail), Decimal(at) + tail, tail, Decimal(dur) + rest, rest, at, dur);
  }

  /** A tag followed by a number in decimal: both steps succeed, and the number is read back. */
  lemma TaggedNumber(t: Bytes, n: nat, rest: Bytes)
    requires n < U32Limit && (rest == [] || !IsDigit(rest[0]))
    ensures Tag(t + (Decimal(n) + rest), t) == Done(Decimal(n) + rest, t)
    ensures Dec(Decimal(n) + rest) == Done(rest, n)
  {
    TagOfPrefix(t, Decimal(n) + rest);
    DecOf(n, rest);
  }

  /** `parse_ww` succeeds when each of its four steps does, and returns the two numbers. */
  lemma ParseWwSteps(s: Bytes, afterAt: Bytes, afterMinute: Bytes, afterFor: Bytes, rest: Bytes, at: nat, dur: nat)
    requires Tag(s, AtTag) == Done(afterAt, AtTag) && Dec(afterAt) == Done(afterMinute, at)
    requires Tag(afterMinute, ForTag) == Done(afterFor, ForTag) && Dec(afterFor) == Done(rest, dur)
    ensures ParseWw(s) == Done(rest, (at, dur))
  {
  }

  const NotUnderstood: Bytes := "I don't understand."
  const TooManyMinutes: Bytes := "Too many minutes."
  const MathError: Bytes := "math error"

  /** `k` minutes in nanoseconds. */
  function Minutes(k: int): int { k * 60_000_000_000 }

  /**
   * The start `War::parse` picks: minute `at` of the current hour, or of the
   * next hour once the current minute has reached `at`, at second 0 (the
   * sub-second part of the clock is kept).
   */
  function StartOf(now: Wall, at: nat): (r: Wall)
    ensures r.minute == at && r.second == 0 && r.nanos == now.nanos
    ensures r.hour == now.hour <==> now.minute < at
    ensures r.hour == now.hour + 1 <==> now.minute >= at
  {
    Wall(if now.minute >= at then now.hour + 1 else now.hour, at, 0, now.nanos)
  }

  /** `War::parse`: the start and the end of the war as wall-clock nanoseconds, or the reply explaining why not. */
  function WarParse(bytes: Bytes, now: Wall): (r: Result<(int, int), Bytes>)
    ensures r.Err? ==> r.error == NotUnderstood || r.error == TooManyMinutes || r.error == MathError
  {
    match ParseWw(bytes)
    case Done(_, v) =>
      var (at, dur) := v;
      if dur > 59 then Err(TooManyMinutes)
      else if at > 59 then Err(MathError)
      else
        var start := Nanos(StartOf(now, at));
        Ok((start, start + Minutes(dur)))
    case _ => Err(NotUnderstood)
  }

  /**
   * The start is the next time, strictly after now and at most an hour
   * away, whose minute is `at` and whose second is 0.
   */
  lemma StartAhead(now: Wall, at: nat)
    requires ValidWall(now) && at < 60
    ensures var s := StartOf(now, at);
      && ValidWall(s) && s.minute == at && s.second == 0
      && Nanos(now) < Nanos(s) <= Nanos(now) + Minutes(60)
      && (now.minute < at ==> s.hour == now.hour)
  {
  }

  /**
   * What `War::parse` accepts and what it yields: a request that reads as two
   * numbers, neither above 59, gives a start ahead of now by at most an hour
   * and an end the requested number of minutes later; everything else is an
   * explanation, checked in the order duration, then minute.
   */
  lemma WarParseMeaning(bytes: Bytes, now: Wall)
    requires ValidWall(now)
    ensures var r := WarParse(bytes, now);
      && (ParseWw(bytes).Done? <==> !(r.Err? && r.error == NotUnderstood))
      && (ParseWw(bytes).Done? && ParseWw(bytes).value.1 > 59 ==> r == Err(TooManyMinutes))
      && (ParseWw(bytes).Done? && ParseWw(bytes).value.1 <= 59 && ParseWw(bytes).value.0 > 59 ==> r == Err(MathError))
      && (r.Ok? ==>
            var (at, dur) := ParseWw(bytes).value;
            && at <= 59 && dur <= 59
            && Nanos(now) < r.value.0 <= Nanos(now) + Minutes(60)
            && r.value.1 == r.value.0 + Minutes(dur))
  {
    if ParseWw(bytes).Done? && ParseWw(bytes).value.0 <= 59 {
      StartAhead(now, ParseWw(bytes).value.0);
    }
  }

  /** `until`: the time from now to `other`, unless `other` has passed. */
  function Until(other: int, now: Wall): (d: Option<nat>)
    ensures d.None? <==> other < Nanos(now)
    ensures d.Some? ==> Nanos(now) + d.value == other
  {
    if other - Nanos(now) < 0 then None else Some(other - Nanos(now))
  }

  /** A war as recorded: the instants its start and end are due, and who started it. */
  datatype War = War(startMsg: int, endMsg: int, starter: Bytes)

  /** `WARS` */
  class WarTable {
    var wars: map<W, War>

    constructor ()
      ensures wars == map[]
    {
      wars := map[];
    }
  }

  function StartText(sender: Bytes): Bytes { Highlight(sender, "<b>START WRITING!</b>") }
  function StopText(sender: Bytes): Bytes { Highlight(sender, "<b>STOP WRITING!</b>") }
  function Scheduled(w: W): Bytes { "Scheduled war with ID #" + (Decimal(w.un) + ".") }
  function Added(w: W): Bytes { "You've been added to war #" + (Decimal(w.un) + ".") }

  /** The instant a wall-clock time falls on, read against one reading of both clocks. */
  function InstantOf(t: int, clk: Clock): int {
    clk.instant + (t - Nanos(clk.wall))
  }

  /** The updates of `wordwar` once its request is read, when the counter stands at `n`: the war takes `n`, the `in` command `n + 1`. */
  function ParsedBatch(res: Result<(int, int), Bytes>, clk: Clock, n: nat): seq<Hook> {
    match res
    case Ok(v) => [AddCommand(M(n + 1), "in", Hooks.WarIn(M(n + 1), W(n), InstantOf(v.0, clk)))]
    case Err(_) => []
  }

  /** How many handles `wordwar` draws once its request is read. */
  function ParsedMinted(res: Result<(int, int), Bytes>): nat {
    if res.Ok? then 2 else 0
  }

  /** The updates of `wordwar` for `ev`. */
  function WarBatch(ev: Event, clk: Clock, n: nat): seq<Hook> {
    ParsedBatch(WarParse(Content(ev), clk.wall), clk, n)
  }

  /** How many handles `wordwar` draws for `ev`. */
  function WarMinted(ev: Event, clk: Clock): nat {
    ParsedMinted(WarParse(Content(ev), clk.wall))
  }

  /**
   * The rest of `wordwar` once the request is understood: the war takes a
   * fresh handle, the START and STOP replies are scheduled for the instants
   * the two times fall on, the war's number is announced, the war is
   * recorded, and `in` is registered under the next handle.
   */
  method Launch(ev: Event, clk: Clock, startTime: int, endTime: int, u: Unique, mq: MQ, wars: WarTable) returns (r: seq<Hook>)
    requires u.Valid() && mq.Valid() && Nanos(clk.wall) < startTime <= endTime
    modifies u, mq, wars
    ensures u.Valid() && mq.Valid() && u.next == old(u.next) + 2
    ensures r == [AddCommand(M(old(u.next) + 1), "in", Hooks.WarIn(M(old(u.next) + 1), W(old(u.next)), InstantOf(startTime, clk)))]
    ensures clk.instant < InstantOf(startTime, clk) <= InstantOf(endTime, clk)
    ensures wars.wars == old(wars.wars)[W(old(u.next)) := War(InstantOf(startTime, clk), InstantOf(endTime, clk), ev.sender)]
    ensures mq.heap == old(mq.heap)
              + multiset{Countdown(InstantOf(startTime, clk), Mk(ev, StartText(ev.sender)))}
              + multiset{Countdown(InstantOf(endTime, clk), Mk(ev, StopText(ev.sender)))}
              + multiset{Countdown(clk.instant, Mk(ev, Highlight(ev.sender, Scheduled(W(old(u.next))))))}
  {
    var n := u.Next();
    var w := W(n);
    var untilStart := Until(startTime, clk.wall);
    var untilEnd := Until(endTime, clk.wall);
    var start := RespondIn(ev, StartText(ev.sender), untilStart.value, mq, clk.instant);
    var end := RespondIn(ev, StopText(ev.sender), untilEnd.value, mq, clk.instant);
    var _ := RespondHighlight(ev, Scheduled(w), mq, clk.instant);
    wars.wars := wars.wars[w := War(start, end, ev.sender)];
    var h := Register(u, "in", m => Hooks.WarIn(m, w, start));
    r := [h];
  }

  /**
   * `wordwar` once the request is read as `res`: a request it cannot use is
   * answered with the reason; a good one is launched.
   */
  method Answer(ev: Event, clk: Clock, res: Result<(int, int), Bytes>, u: Unique, mq: MQ, wars: WarTable) returns (r: seq<Hook>)
    requires u.Valid() && mq.Valid()
    requires res.Ok? ==> Nanos(clk.wall) < res.value.0 <= res.value.1
    modifies u, mq, wars
    ensures u.Valid() && mq.Valid()
    ensures r == ParsedBatch(res, clk, old(u.next)) && u.next == old(u.next) + ParsedMinted(res)
    ensures res.Err? ==>
              && wars.wars == old(wars.wars)
              && mq.heap == old(mq.heap) + multiset{Countdown(clk.instant, Mk(ev, Highlight(ev.sender, res.error)))}
    ensures res.Ok? ==>
              var w := W(old(u.next));
              && clk.instant < InstantOf(res.value.0, clk) <= InstantOf(res.value.1, clk)
              && wars.wars == old(wars.wars)[w := War(InstantOf(res.value.0, clk), InstantOf(res.value.1, clk), ev.sender)]
              && mq.heap == old(mq.heap)
                 + multiset{Countdown(InstantOf(res.value.0, clk), Mk(ev, StartText(ev.sender)))}
                 + multiset{Countdown(InstantOf(res.value.1, clk), Mk(ev, StopText(ev.sender)))}
                 + multiset{Countdown(clk.instant, Mk(ev, Highlight(ev.sender, Scheduled(w))))}
  {
    if res.Err? {
      var _ := RespondHighlight(ev, res.error, mq, clk.instant);
      r := [];
    } else {
      r := Launch(ev, clk, res.value.0, res.value.1, u, mq, wars);
    }
  }

  /**
   * `wordwar`. A request it cannot use is answered with the reason. A good
   * one draws a war handle, schedules the START and STOP replies, announces
   * the war's number, records the war, and registers `in`. The START reply
   * is due after now and the STOP reply no earlier, so neither `unwrap`
   * can fail.
   */
  method WordWar(ev: Event, clk: Clock, u: Unique, mq: MQ, wars: WarTable) returns (r: seq<Hook>)
    requires u.Valid() && mq.Valid() && ValidWall(clk.wall)
    modifies u, mq, wars
    ensures u.Valid() && mq.Valid()
    ensures r == WarBatch(ev, clk, old(u.next)) && u.next == old(u.next) + WarMinted(ev, clk)
    ensures WarParse(Content(ev), clk.wall).Err? ==>
              && wars.wars == old(wars.wars)
              && mq.heap == old(mq.heap) + multiset{Countdown(clk.instant, Mk(ev, Highlight(ev.sender, WarParse(Content(ev), clk.wall).error)))}
    ensures WarParse(Content(ev), clk.wall).Ok? ==>
              var v := WarParse(Content(ev), clk.wall).value;
              var w := W(old(u.next));
              && clk.instant < InstantOf(v.0, clk) <= InstantOf(v.1, clk)
              && wars.wars == old(wars.wars)[w := War(InstantOf(v.0, clk), InstantOf(v.1, clk), ev.sender)]
              && mq.heap == old(mq.heap)
                 + multiset{Countdown(InstantOf(v.0, clk), Mk(ev, StartText(ev.sender)))}
                 + multiset{Countdown(InstantOf(v.1, clk), Mk(ev, StopText(ev.sender)))}
                 + multiset{Countdown(clk.instant, Mk(ev, Highlight(ev.sender, Scheduled(w))))}
  {
    var res := WarParse(Content(ev), clk.wall);
    WarParseMeaning(Content(ev), clk.wall);
    r := Answer(ev, clk, res, u, mq, wars);
  }

  /** The updates of the `in` command: it removes itself once the war has started. */
  function InBatch(m: M, start: int, now: int): seq<Hook> {
    if now > start then [DropMessage(m)] else []
  }

  /** The `in` command of war `w`, built with its own handle `m` and the instant `start` of the war. */
  method WarIn(m: M, w: W, start: int, ev: Event, mq: MQ, now: int) returns (r: seq<Hook>)
    requires mq.Valid()
    modifies mq
    ensures r == InBatch(m, start, now) && mq.Valid()
    ensures now > start ==> mq.heap == old(mq.heap) && mq.timeout == old(mq.timeout)
    ensures now <= start ==> mq.heap == old(mq.heap) + multiset{Countdown(now, Mk(ev, Highlight(ev.sender, Added(w))))}
  {
    if now > start {
      return [Unregister(m)];
    }
    var _ := RespondHighlight(ev, Added(w), mq, now);
    r := [];
  }

  /**
   * The `in` command lives until the war starts: registered on a registry
   * whose handles were drawn before `n + 1`, it stays for any use up to the
   * start and, used after it, leaves the registry as it found it.
   */
  lemma InExpires(r: Registry, n: nat, start: int, now: int)
    requires Below(r, n + 1)
    ensures var s := Step(r, AddCommand(M(n + 1), "in", Hooks.WarIn(M(n + 1), W(n), start)));
      && (now <= start ==> Applied(s, InBatch(M(n + 1), start, now)) == s)
      && (now > start ==> Applied(s, InBatch(M(n + 1), start, now)) == r)
  {
    var s := Step(r, AddCommand(M(n + 1), "in", Hooks.WarIn(M(n + 1), W(n), start)));
    AppliedOne(s, DropMessage(M(n + 1)));
    assert M(n + 1) !in r.msg;
    assert s.msg - {M(n + 1)} == r.msg;
  }
}
