/** The `foo` and `bar` commands of src/commands/foobar.rs: each hands the floor to the other. */
module FooBar {
  import opened ByteStrings
  import opened Hooks
  import opened MessageQueue
  import opened Events

  const FooText: Bytes := "Disabling !foo and enabling !bar"
  const BarText: Bytes := "Disabling !bar and enabling !foo"

  /** The updates of `foo(m)` when the counter stands at `n`. */
  function FooBatch(m: M, n: nat): seq<Hook> {
    [DropMessage(m), AddCommand(M(n), "bar", Hooks.Bar(M(n)))]
  }

  /** The updates of `bar(m)` when the counter stands at `n`. */
  function BarBatch(m: M, n: nat): seq<Hook> {
    [DropMessage(m), AddCommand(M(n), "foo", Hooks.Foo(M(n)))]
  }

  /** `foo`, built with its own handle `m`. */
  method Foo(m: M, ev: Event, u: Unique, mq: MQ, now: int) returns (r: seq<Hook>)
    requires u.Valid()
    modifies u, mq
    ensures u.Valid() && u.next == old(u.next) + 1
    ensures r == FooBatch(m, old(u.next))
    ensures mq.heap == old(mq.heap) + multiset{Countdown(now, Mk(ev, FooText))} && mq.Valid()
  {
    var _ := Respond(ev, FooText, mq, now);
    var added := Register(u, "bar", k => Hooks.Bar(k));
    r := [Unregister(m), added];
  }

  /** `bar`, built with its own handle `m`. */
  method Bar(m: M, ev: Event, u: Unique, mq: MQ, now: int) returns (r: seq<Hook>)
    requires u.Valid()
    modifies u, mq
    ensures u.Valid() && u.next == old(u.next) + 1
    ensures r == BarBatch(m, old(u.next))
    ensures mq.heap == old(mq.heap) + multiset{Countdown(now, Mk(ev, BarText))} && mq.Valid()
  {
    var _ := Respond(ev, BarText, mq, now);
    var added := Register(u, "foo", k => Hooks.Foo(k));
    r := [Unregister(m), added];
  }

  /**
   * Dropping the firing handle and then adding a command under a fresh one:
   * the firing handle is gone, the new command sits under a handle that is
   * different and was not in use, and nothing else changes.
   */
  lemma Handover(r: Registry, m: M, n: nat, word: Bytes, c: Command)
    requires Below(r, n) && m in r.msg
    ensures var s := Step(Step(r, DropMessage(m)), AddCommand(M(n), word, c));
      && m !in s.msg && M(n) != m && M(n) !in r.msg
      && M(n) in s.msg && s.msg[M(n)] == Gated(word, c)
      && s.join == r.join
      && Below(s, n + 1)
  {
    assert M(n) !in r.msg;
  }

  /**
   * Applying either batch removes the firing handle and adds the other
   * command under a handle that differs from it and was not in use.
   */
  lemma Toggles(r: Registry, m: M, n: nat)
    requires Below(r, n) && m in r.msg
    ensures var s := Applied(r, FooBatch(m, n));
      m !in s.msg && M(n) != m && M(n) !in r.msg && M(n) in s.msg && s.msg[M(n)] == Gated("bar", Hooks.Bar(M(n)))
    ensures var s := Applied(r, BarBatch(m, n));
      m !in s.msg && M(n) != m && M(n) !in r.msg && M(n) in s.msg && s.msg[M(n)] == Gated("foo", Hooks.Foo(M(n)))
  {
    AppliedTwo(r, DropMessage(m), AddCommand(M(n), "bar", Hooks.Bar(M(n))));
    Handover(r, m, n, "bar", Hooks.Bar(M(n)));
    AppliedTwo(r, DropMessage(m), AddCommand(M(n), "foo", Hooks.Foo(M(n))));
    Handover(r, m, n, "foo", Hooks.Foo(M(n)));
  }

  /** The handover leaves every other handle as it was. */
  lemma HandoverKeeps(r: Registry, m: M, n: nat, word: Bytes, c: Command, k: M)
    requires k != m && k != M(n)
    ensures var s := Step(Step(r, DropMessage(m)), AddCommand(M(n), word, c));
      && (k in s.msg <==> k in r.msg)
      && (k in r.msg ==> s.msg[k] == r.msg[k])
  {
  }

  /**
   * `!foo` then `!bar`: after both batches the two firing handles are gone
   * and `foo` is back, under the handle minted by `bar`.
   */
  lemma FooThenBar(r: Registry, m: M, n: nat)
    requires Below(r, n) && m in r.msg
    ensures var s := Applied(Applied(r, FooBatch(m, n)), BarBatch(M(n), n + 1));
      && m !in s.msg && M(n) !in s.msg
      && M(n + 1) in s.msg && s.msg[M(n + 1)] == Gated("foo", Hooks.Foo(M(n + 1)))
      && Below(s, n + 2)
  {
    var s1 := Step(Step(r, DropMessage(m)), AddCommand(M(n), "bar", Hooks.Bar(M(n))));
    var s2 := Step(Step(s1, DropMessage(M(n))), AddCommand(M(n + 1), "foo", Hooks.Foo(M(n + 1))));
    assert m !in s1.msg && M(n) in s1.msg && Below(s1, n + 1) by {
      Handover(r, m, n, "bar", Hooks.Bar(M(n)));
    }
    assert M(n) !in s2.msg && M(n + 1) in s2.msg && s2.msg[M(n + 1)] == Gated("foo", Hooks.Foo(M(n + 1))) && Below(s2, n + 2) by {
      Handover(s1, M(n), n + 1, "foo", Hooks.Foo(M(n + 1)));
    }
    assert m !in s2.msg by {
      assert m.un < n;
      HandoverKeeps(s1, M(n), n + 1, "foo", Hooks.Foo(M(n + 1)), m);
    }
    AppliedTwo(r, DropMessage(m), AddCommand(M(n), "bar", Hooks.Bar(M(n))));
    AppliedTwo(s1, DropMessage(M(n)), AddCommand(M(n + 1), "foo", Hooks.Foo(M(n + 1))));
  }
}
