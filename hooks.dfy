/**
 * The handler registry of src/hooks.rs: message handlers and join handlers
 * kept under handles, changed only by batches of updates that handlers
 * return, and the counter every handle is drawn from.
 */
module Hooks {
  import opened Wrappers
  import opened ByteStrings

  /** `M`, `J` and `W`: handles of message hooks, join hooks and word wars. */
  datatype M = M(un: nat)
  datatype J = J(un: nat)
  datatype W = W(un: nat)

  /**
   * `Command`: a boxed handler. The bot builds its handlers from a fixed set
   * of closures, each named here together with what it captured.
   */
  datatype Command =
    | About
      /** src/commands/commands.rs: the names captured when the handler was built */
    | ListCommands(names: seq<Bytes>)
    | Echo
    | Ping
      /** src/commands/ping.rs: the hook's own handle and the instant the ping went out */
    | PingReply(m: M, sent: int)
    | Foo(m: M)
    | Bar(m: M)
    | Sleep
    | Wakeup
    | WordWar
      /** src/commands/wordwar.rs: the `in` hook's own handle, the war, and when it starts */
    | WarIn(m: M, w: W, start: int)

  /** `Hook`: one update to the registry. */
  datatype Hook =
    | AddMessage(m: M, c: Command)
    | AddCommand(m: M, word: Bytes, c: Command)
    | AddJoin(j: J, c: Command)
    | DropMessage(m: M)
    | DropJoin(j: J)

  /** A stored message handler: as it was added, or behind the gate `add_command` puts around it. */
  datatype Entry = Plain(c: Command) | Gated(word: Bytes, c: Command)

  /** The contents of a `HookStorage`. */
  datatype Registry = Registry(msg: map<M, Entry>, join: map<J, Command>)

  /** The message-hook handle an update is about, if any. */
  function MsgKey(h: Hook): Option<M> {
    match h
    case AddMessage(m, _) => Some(m)
    case AddCommand(m, _, _) => Some(m)
    case DropMessage(m) => Some(m)
    case _ => None
  }

  /** The join-hook handle an update is about, if any. */
  function JoinKey(h: Hook): Option<J> {
    match h
    case AddJoin(j, _) => Some(j)
    case DropJoin(j) => Some(j)
    case _ => None
  }

  /**
   * One update as `apply` performs it: an addition stores its handler under
   * its handle, replacing what was there; a removal deletes the handle, if it
   * is there. Every other handle of either map keeps its handler.
   */
  function Step(r: Registry, h: Hook): (s: Registry)
    ensures forall m | Some(m) != MsgKey(h) :: (m in s.msg <==> m in r.msg) && (m in r.msg ==> s.msg[m] == r.msg[m])
    ensures forall j | Some(j) != JoinKey(h) :: (j in s.join <==> j in r.join) && (j in r.join ==> s.join[j] == r.join[j])
    ensures h.AddMessage? ==> h.m in s.msg && s.msg[h.m] == Plain(h.c)
    ensures h.AddCommand? ==> h.m in s.msg && s.msg[h.m] == Gated(h.word, h.c)
    ensures h.AddJoin? ==> h.j in s.join && s.join[h.j] == h.c
    ensures h.DropMessage? ==> h.m !in s.msg
    ensures h.DropJoin? ==> h.j !in s.join
  {
    match h
    case AddMessage(m, c) => Registry(r.msg[m := Plain(c)], r.join)
    case AddCommand(m, word, c) => Registry(r.msg[m := Gated(word, c)], r.join)
    case AddJoin(j, c) => Registry(r.msg, r.join[j := c])
    case DropMessage(m) => Registry(r.msg - {m}, r.join)
    case DropJoin(j) => Registry(r.msg, r.join - {j})
  }

  /** A batch of updates applied in order. */
  function Applied(r: Registry, hs: seq<Hook>): Registry
    decreases |hs|
  {
    if hs == [] then r else Applied(Step(r, hs[0]), hs[1..])
  }

  /** Applying a batch one more update long is applying that update last. */
  lemma {:induction false} AppliedSnoc(r: Registry, hs: seq<Hook>, h: Hook)
    ensures Applied(r, hs + [h]) == Step(Applied(r, hs), h)
    decreases |hs|
  {
    if hs == [] {
      assert [h][1..] == [];
    } else {
      TailAppend(hs, [h]);
      AppliedSnoc(Step(r, hs[0]), hs[1..], h);
    }
  }

  /** Applying two batches one after the other is applying their concatenation. */
  lemma {:induction false} AppliedAppend(r: Registry, a: seq<Hook>, b: seq<Hook>)
    ensures Applied(r, a + b) == Applied(Applied(r, a), b)
    decreases |a|
  {
    if a == [] {
      assert a + b == b;
    } else {
      TailAppend(a, b);
      AppliedAppend(Step(r, a[0]), a[1..], b);
    }
  }

  /** A batch of one update is that update. */
  lemma AppliedOne(r: Registry, h: Hook)
    ensures Applied(r, [h]) == Step(r, h)
  {
    assert Applied(Step(r, h), [h][1..]) == Step(r, h) by {
      assert [h][1..] == [];
    }
  }

  /** A batch of two updates is the first, then the second. */
  lemma AppliedTwo(r: Registry, h1: Hook, h2: Hook)
    ensures Applied(r, [h1, h2]) == Step(Step(r, h1), h2)
  {
    assert [h1, h2][1..] == [h2];
    AppliedOne(Step(r, h1), h2);
  }

  /** Removing a handle that is not there changes nothing. */
  lemma DropAbsent(r: Registry, m: M)
    requires m !in r.msg
    ensures Step(r, DropMessage(m)) == r
  {
    assert r.msg - {m} == r.msg;
  }

  /** Every handle in the registry was drawn before the counter reached `n`. */
  predicate Below(r: Registry, n: nat) {
    && (forall m | m in r.msg :: m.un < n)
    && (forall j | j in r.join :: j.un < n)
  }

  /** `TRIGGERS` */
  const Triggers: seq<Bytes> := ["!", "participle: "]

  /** The length of the trigger a gated message opens with: `participle: ` when it opens with that, `!` otherwise. */
  function TriggerLength(message: Bytes): nat {
    if StartsWith(message, Triggers[1]) then |Triggers[1]| else |Triggers[0]|
  }

  /** The gate of `add_command`: the message opens with a trigger and the command word follows it directly. */
  predicate Fires(message: Bytes, cmd: Bytes) {
    OpensFrom(message, cmd, 0)
  }

  /** Some trigger from the `i`-th on opens the gate: what is left of the search through `TRIGGERS`. */
  predicate OpensFrom(message: Bytes, cmd: Bytes, i: nat)
    decreases |Triggers| - i
  {
    i < |Triggers| && (GateOpens(message, Triggers[i], cmd) || OpensFrom(message, cmd, i + 1))
  }

  /** The message opens with trigger `t`, directly followed by the command word. */
  predicate GateOpens(message: Bytes, t: Bytes, cmd: Bytes) {
    StartsWith(message, t) && StartsWith(message[|t|..], cmd)
  }

  /** `matches`: tries each trigger in turn. */
  method Matches(message: Bytes, cmd: Bytes) returns (b: bool)
    ensures b <==> Fires(message, cmd)
  {
    for i := 0 to |Triggers|
      invariant Fires(message, cmd) <==> OpensFrom(message, cmd, i)
    {
      var t := Triggers[i];
      if StartsWith(message, t) {
        if StartsWith(message[|t|..], cmd) {
          return true;
        }
      }
    }
    return false;
  }

  /**
   * The gate is a plain prefix test: it opens exactly when the message starts
   * with `!` or `participle: ` immediately followed by the command word, so
   * `!pingpong` opens the gate of `ping`.
   */
  lemma FiresAsPrefix(message: Bytes, cmd: Bytes)
    ensures Fires(message, cmd) <==> StartsWith(message, "!" + cmd) || StartsWith(message, "participle: " + cmd)
  {
    assert Fires(message, cmd) <==> GateOpens(message, Triggers[0], cmd) || GateOpens(message, Triggers[1], cmd) by {
      assert !OpensFrom(message, cmd, 2);
    }
    StartsWithConcat(message, Triggers[0], cmd);
    StartsWithConcat(message, Triggers[1], cmd);
  }

  /** `UNIQUE`: the one counter all handles are drawn from. */
  class Unique {
    var next: nat
    /** Every value handed out so far. */
    ghost var issued: set<nat>

    ghost predicate Valid()
      reads this
    {
      forall n | n in issued :: n < next
    }

    constructor ()
      ensures Valid() && next == 0 && issued == {}
    {
      next := 0;
      issued := {};
    }

    /** `fetch_add(1)`: each value is larger than every one before it, whatever kind of handle it becomes. */
    method Next() returns (n: nat)
      requires Valid()
      modifies this
      ensures Valid()
      ensures n == old(next) && next == old(next) + 1
      ensures n !in old(issued) && issued == old(issued) + {n}
      ensures forall k | k in old(issued) :: k < n
    {
      n := next;
      next := next + 1;
      issued := issued + {n};
    }
  }

  /** `Hook::register`: a command behind the gate of its word, under a fresh handle it is built with. */
  method Register(u: Unique, word: Bytes, f: M -> Command) returns (h: Hook)
    requires u.Valid()
    modifies u
    ensures u.Valid() && u.next == old(u.next) + 1 && u.issued == old(u.issued) + {old(u.next)}
    ensures h == AddCommand(M(old(u.next)), word, f(M(old(u.next))))
  {
    var n := u.Next();
    h := AddCommand(M(n), word, f(M(n)));
  }

  /** `Hook::join`: a join handler under a fresh handle it is built with. */
  method RegisterJoin(u: Unique, f: J -> Command) returns (h: Hook)
    requires u.Valid()
    modifies u
    ensures u.Valid() && u.next == old(u.next) + 1 && u.issued == old(u.issued) + {old(u.next)}
    ensures h == AddJoin(J(old(u.next)), f(J(old(u.next))))
  {
    var n := u.Next();
    h := AddJoin(J(n), f(J(n)));
  }

  /** `Hook::register_msg`: an ungated message handler under a fresh handle it is built with. */
  method RegisterMsg(u: Unique, f: M -> Command) returns (h: Hook)
    requires u.Valid()
    modifies u
    ensures u.Valid() && u.next == old(u.next) + 1 && u.issued == old(u.issued) + {old(u.next)}
    ensures h == AddMessage(M(old(u.next)), f(M(old(u.next))))
  {
    var n := u.Next();
    h := AddMessage(M(n), f(M(n)));
  }

  /** `Hook::unregister` */
  function Unregister(m: M): (h: Hook)
    ensures forall r :: Step(r, h).msg == r.msg - {m} && Step(r, h).join == r.join
  {
    DropMessage(m)
  }

  /** `HookStorage` */
  class HookStorage {
    var msg: map<M, Entry>
    var join: map<J, Command>

    function Contents(): Registry
      reads this
    {
      Registry(msg, join)
    }

    /** `HookStorage::new` */
    constructor ()
      ensures msg == map[] && join == map[]
    {
      msg := map[];
      join := map[];
    }

    /** `add_command`: stores the handler behind the gate of its word and hands back the same handle. */
    method AddCommand(u: M, word: Bytes, cb: Command) returns (r: M)
      modifies this
      ensures r == u
      ensures msg == old(msg)[u := Gated(word, cb)] && join == old(join)
    {
      msg := msg[u := Gated(word, cb)];
      r := u;
    }

    /** `apply`: the updates one after the other, in the order of the batch. */
    method Apply(updates: seq<Hook>)
      modifies this
      ensures Contents() == Applied(old(Contents()), updates)
    {
      for i := 0 to |updates|
        invariant Contents() == Applied(old(Contents()), updates[..i])
      {
        assert updates[..i + 1] == updates[..i] + [updates[i]];
        AppliedSnoc(old(Contents()), updates[..i], updates[i]);
        match updates[i] {
          case AddMessage(m, c) =>
            msg := msg[m := Plain(c)];
          case AddCommand(m, word, c) =>
            var added := AddCommand(m, word, c);
          case AddJoin(j, c) =>
            join := join[j := c];
          case DropMessage(m) =>
            msg := msg - {m};
          case DropJoin(j) =>
            join := join - {j};
        }
      }
      assert updates[..|updates|] == updates;
    }
  }
}
