/**
 * The packet handlers of src/handler.rs. A `recv` packet is classified as an
 * event and handed to every join handler or every message handler; their
 * batches of updates are joined and applied to the registry once all of them
 * have run. `ping`, `login` and `dAmnServer` packets get fixed replies.
 *
 * The globals the handlers share are parameters: the handle counter, the
 * sleep slot, the table of word wars, the delivery queue, and one reading of
 * the clocks for the whole pass. The text of `about`, built from version
 * strings of the build environment, is a parameter as well.
 */
module Handler {
  import opened Wrappers
  import opened ByteStrings
  import Packet
  import opened Hooks
  import opened MessageQueue
  import opened Events
  import CommandList
  import EchoCmd = Echo
  import PingCmd = Ping
  import FooBar
  import SleepCmd = Sleep
  import WarCmd = WordWar

  // ------------------------------------------------------------ one handler

  /** The updates a handler of kind `c` returns for `ev`, when the counter stands at `n`. */
  function Batch(c: Command, ev: Event, clk: Clock, n: nat): seq<Hook> {
    match c
    case Ping => PingCmd.PingBatch(n, clk.instant)
    case PingReply(m, _) => PingCmd.ReplyBatch(m, ev.message)
    case Foo(m) => FooBar.FooBatch(m, n)
    case Bar(m) => FooBar.BarBatch(m, n)
    case WordWar => WarCmd.WarBatch(ev, clk, n)
    case WarIn(m, _, start) => WarCmd.InBatch(m, start, clk.instant)
    case _ => []
  }

  /** How many handles a handler of kind `c` draws for `ev`. */
  function Minted(c: Command, ev: Event, clk: Clock): nat {
    match c
    case Ping => 1
    case Foo(_) => 1
    case Bar(_) => 1
    case WordWar => WarCmd.WarMinted(ev, clk)
    case _ => 0
  }

  /** The state the commands keep, the sleep slot and the table of word wars, is as it was. */
  twostate predicate CommandStateKept(slot: SleepCmd.Slot, wars: WarCmd.WarTable)
    reads slot, wars
  {
    slot.n == old(slot.n) && wars.wars == old(wars.wars)
  }

  /** Calling a boxed handler: the closure each kind stands for. */
  method Run(c: Command, ev: Event, clk: Clock, about: Bytes, u: Unique, mq: MQ, slot: SleepCmd.Slot, wars: WarCmd.WarTable)
    returns (r: seq<Hook>)
    requires u.Valid() && mq.Valid() && ValidWall(clk.wall)
    modifies u, mq, slot, wars
    ensures u.Valid() && mq.Valid()
    ensures r == Batch(c, ev, clk, old(u.next)) && u.next == old(u.next) + Minted(c, ev, clk)
    ensures !(c.Sleep? || c.Wakeup?) ==> slot.n == old(slot.n)
    ensures !c.WordWar? ==> wars.wars == old(wars.wars)
  {
    if c.Ping? || c.Foo? || c.Bar? {
      r := RunMinting(c, ev, clk, u, mq);
    } else if c.WordWar? {
      r := RunWordWar(ev, clk, u, mq, wars);
    } else if c.PingReply? || c.WarIn? {
      r := RunOneShot(c, ev, clk, u.next, mq);
    } else {
      r := RunReplying(c, ev, clk, about, u.next, mq, slot);
    }
  }

  /** `ping`, `foo` and `bar`, which each draw one handle. */
  method RunMinting(c: Command, ev: Event, clk: Clock, u: Unique, mq: MQ) returns (r: seq<Hook>)
    requires (c.Ping? || c.Foo? || c.Bar?) && u.Valid()
    modifies u, mq
    ensures u.Valid() && mq.Valid()
    ensures r == Batch(c, ev, clk, old(u.next)) && u.next == old(u.next) + Minted(c, ev, clk)
  {
    match c {
      case Ping =>
        r := PingCmd.Ping(ev, u, mq, clk.instant);
      case Foo(m) =>
        r := FooBar.Foo(m, ev, u, mq, clk.instant);
      case Bar(m) =>
        r := FooBar.Bar(m, ev, u, mq, clk.instant);
    }
  }

  /** `wordwar`, which draws two handles when it understands the request. */
  method RunWordWar(ev: Event, clk: Clock, u: Unique, mq: MQ, wars: WarCmd.WarTable) returns (r: seq<Hook>)
    requires u.Valid() && mq.Valid() && ValidWall(clk.wall)
    modifies u, mq, wars
    ensures u.Valid() && mq.Valid()
    ensures r == WarCmd.WarBatch(ev, clk, old(u.next)) && u.next == old(u.next) + WarCmd.WarMinted(ev, clk)
  {
    r := WarCmd.WordWar(ev, clk, u, mq, wars);
  }

  /** The hooks a command leaves behind, which remove themselves: the answer to a ping, and `in` of a word war. */
  method RunOneShot(c: Command, ev: Event, clk: Clock, ghost n: nat, mq: MQ) returns (r: seq<Hook>)
    requires (c.PingReply? || c.WarIn?) && mq.Valid()
    modifies mq
    ensures mq.Valid()
    ensures r == Batch(c, ev, clk, n) && Minted(c, ev, clk) == 0
  {
    match c {
      case PingReply(m, sent) =>
        r := PingCmd.PingReply(m, sent, ev, mq, clk.instant);
      case WarIn(m, w, start) =>
        r := WarCmd.WarIn(m, w, start, ev, mq, clk.instant);
    }
  }

  /** The handlers that only reply, or stay silent, and return no updates. */
  method RunReplying(c: Command, ev: Event, clk: Clock, about: Bytes, ghost n: nat, mq: MQ, slot: SleepCmd.Slot)
    returns (r: seq<Hook>)
    requires (c.About? || c.ListCommands? || c.Echo? || c.Sleep? || c.Wakeup?) && mq.Valid()
    modifies mq, slot
    ensures mq.Valid()
    ensures r == Batch(c, ev, clk, n) == [] && Minted(c, ev, clk) == 0
    ensures !(c.Sleep? || c.Wakeup?) ==> slot.n == old(slot.n)
  {
    var now := clk.instant;
    match c {
      case About =>
        var _ := Respond(ev, about, mq, now);
        r := [];
      case ListCommands(names) =>
        r := CommandList.ListCommands(names, ev, mq, now);
      case Echo =>
        r := EchoCmd.Echo(ev, mq, now);
      case Sleep =>
        r := SleepCmd.Sleep(ev, slot, mq, now);
      case Wakeup =>
        ghost var cancelled;
        r, cancelled := SleepCmd.Wakeup(ev, slot, mq, now);
    }
  }

  /** The updates a stored entry returns: a gated handler runs only when its gate opens, and returns nothing otherwise. */
  function EntryBatch(e: Entry, ev: Event, clk: Clock, n: nat): seq<Hook> {
    match e
    case Plain(c) => Batch(c, ev, clk, n)
    case Gated(word, c) => if Fires(ev.message, word) then Batch(c, ev, clk, n) else []
  }

  function EntryMinted(e: Entry, ev: Event, clk: Clock): nat {
    match e
    case Plain(c) => Minted(c, ev, clk)
    case Gated(word, c) => if Fires(ev.message, word) then Minted(c, ev, clk) else 0
  }

  /** Calling a stored entry, with the gate `add_command` wraps around a command. */
  method RunEntry(e: Entry, ev: Event, clk: Clock, about: Bytes, u: Unique, mq: MQ, slot: SleepCmd.Slot, wars: WarCmd.WarTable)
    returns (r: seq<Hook>)
    requires u.Valid() && mq.Valid() && ValidWall(clk.wall)
    modifies u, mq, slot, wars
    ensures u.Valid() && mq.Valid()
    ensures r == EntryBatch(e, ev, clk, old(u.next)) && u.next == old(u.next) + EntryMinted(e, ev, clk)
    ensures e.Gated? && !Fires(ev.message, e.word) ==>
              mq.heap == old(mq.heap) && mq.timeout == old(mq.timeout) && u.next == old(u.next)
              && CommandStateKept(slot, wars)
  {
    match e {
      case Plain(c) =>
        r := Run(c, ev, clk, about, u, mq, slot, wars);
      case Gated(word, c) =>
        var open := Matches(ev.message, word);
        if open {
          r := Run(c, ev, clk, about, u, mq, slot, wars);
        } else {
          r := [];
        }
    }
  }

  // ----------------------------------------------------------- a whole pass

  /** Step `k` of a recorded pass returned `outs[k]`: entry `k` ran with the counter at `starts[k]`. */
  ghost predicate Returned(es: seq<Entry>, k: nat, ev: Event, clk: Clock, outs: seq<seq<Hook>>, starts: seq<nat>) {
    k < |es| && k < |outs| && k < |starts| && outs[k] == EntryBatch(es[k], ev, clk, starts[k])
  }

  /** Step `k` of a recorded pass left the counter at `starts[k + 1]`. */
  ghost predicate Drew(es: seq<Entry>, k: nat, ev: Event, clk: Clock, starts: seq<nat>) {
    k < |es| && k + 1 < |starts| && starts[k + 1] == starts[k] + EntryMinted(es[k], ev, clk)
  }

  /**
   * A record of a pass over the first `n` entries of `es`: every step
   * returned its batch and moved the counter by what it drew.
   */
  ghost predicate PassUpTo(es: seq<Entry>, n: nat, ev: Event, clk: Clock, outs: seq<seq<Hook>>, starts: seq<nat>) {
    && n <= |es| && |outs| == n && |starts| == n + 1
    && (forall k | 0 <= k < n :: Returned(es, k, ev, clk, outs, starts))
    && (forall k | 0 <= k < n :: Drew(es, k, ev, clk, starts))
  }

  /** A record of one pass over all of `es`. */
  ghost predicate Pass(es: seq<Entry>, ev: Event, clk: Clock, outs: seq<seq<Hook>>, starts: seq<nat>) {
    PassUpTo(es, |es|, ev, clk, outs, starts)
  }

  /** The batches of a pass joined in the order they were returned. */
  function Concat(outs: seq<seq<Hook>>): seq<Hook>
    decreases |outs|
  {
    if outs == [] then [] else Concat(outs[..|outs| - 1]) + outs[|outs| - 1]
  }

  /** The counters of two records of the same pass agree up to `i`. */
  lemma {:induction false} PassStartsAgree(es: seq<Entry>, ev: Event, clk: Clock,
                                           outs: seq<seq<Hook>>, starts: seq<nat>,
                                           outs': seq<seq<Hook>>, starts': seq<nat>, i: nat)
    requires Pass(es, ev, clk, outs, starts) && Pass(es, ev, clk, outs', starts')
    requires starts[0] == starts'[0] && i <= |es|
    ensures starts[i] == starts'[i]
  {
    if i > 0 {
      PassStartsAgree(es, ev, clk, outs, starts, outs', starts', i - 1);
      assert Drew(es, i - 1, ev, clk, starts) && Drew(es, i - 1, ev, clk, starts');
    }
  }

  /** A pass is determined by its entries, the event, the clocks and the counter it starts from. */
  lemma PassUnique(es: seq<Entry>, ev: Event, clk: Clock,
                   outs: seq<seq<Hook>>, starts: seq<nat>, outs': seq<seq<Hook>>, starts': seq<nat>)
    requires Pass(es, ev, clk, outs, starts) && Pass(es, ev, clk, outs', starts')
    requires starts[0] == starts'[0]
    ensures outs == outs' && starts == starts'
  {
    forall i | 0 <= i <= |es|
      ensures starts[i] == starts'[i]
    {
      PassStartsAgree(es, ev, clk, outs, starts, outs', starts', i);
    }
    forall k | 0 <= k < |es|
      ensures outs[k] == outs'[k]
    {
      assert Returned(es, k, ev, clk, outs, starts) && Returned(es, k, ev, clk, outs', starts');
    }
  }

  /**
   * Handlers draw their handles one after another: every handler after
   * entry `j` starts from a counter past all the handles entry `j` drew.
   */
  lemma {:induction false} PassDrawsInTurn(es: seq<Entry>, ev: Event, clk: Clock,
                         outs: seq<seq<Hook>>, starts: seq<nat>, j: nat, k: nat)
    requires Pass(es, ev, clk, outs, starts) && j < k <= |es|
    ensures starts[j] + EntryMinted(es[j], ev, clk) <= starts[k]
  {
    if k > j + 1 {
      PassDrawsInTurn(es, ev, clk, outs, starts, j, k - 1);
    }
    assert Drew(es, k - 1, ev, clk, starts);
  }

  /** Batches that are all empty join to nothing. */
  lemma {:induction false} ConcatEmpty(outs: seq<seq<Hook>>)
    requires forall k | 0 <= k < |outs| :: outs[k] == []
    ensures Concat(outs) == []
    decreases |outs|
  {
    if outs != [] {
      ConcatEmpty(outs[..|outs| - 1]);
    }
  }

  /** A counter that no step moves ends where it started. */
  lemma {:induction false} CounterStays(starts: seq<nat>, i: nat)
    requires i < |starts|
    requires forall k | 0 <= k < |starts| - 1 :: starts[k + 1] == starts[k]
    ensures starts[i] == starts[0]
  {
    if i > 0 {
      CounterStays(starts, i - 1);
    }
  }

  /** An entry gated by `add_command` stays closed on a line that opens with neither trigger. */
  lemma GateClosed(e: Entry, ev: Event, clk: Clock, n: nat)
    requires e.Gated?
    requires !StartsWith(ev.message, "!") && !StartsWith(ev.message, "participle: ")
    ensures EntryBatch(e, ev, clk, n) == [] && EntryMinted(e, ev, clk) == 0
  {
    FiresAsPrefix(ev.message, e.word);
    StartsWithConcat(ev.message, "!", e.word);
    StartsWithConcat(ev.message, "participle: ", e.word);
  }

  /**
   * An ordinary line of chat, one that opens with neither trigger, passes
   * every gate closed: a pass over entries that are all gated commands
   * returns nothing and draws no handle.
   */
  lemma QuietLine(es: seq<Entry>, ev: Event, clk: Clock, outs: seq<seq<Hook>>, starts: seq<nat>)
    requires forall i | 0 <= i < |es| :: es[i].Gated?
    requires !StartsWith(ev.message, "!") && !StartsWith(ev.message, "participle: ")
    requires Pass(es, ev, clk, outs, starts)
    ensures Concat(outs) == [] && starts[|es|] == starts[0]
  {
    forall k | 0 <= k < |es|
      ensures outs[k] == [] && starts[k + 1] == starts[k]
    {
      assert Returned(es, k, ev, clk, outs, starts) && Drew(es, k, ev, clk, starts);
      GateClosed(es[k], ev, clk, starts[k]);
    }
    ConcatEmpty(outs);
    CounterStays(starts, |es|);
  }

  /** The entries of a map in the order its keys are listed: `values()`. */
  function Values<K, V>(order: seq<K>, m: map<K, V>): (vs: seq<V>)
    requires forall k | k in order :: k in m
    ensures |vs| == |order| && forall i | 0 <= i < |order| :: vs[i] == m[order[i]]
    decreases |order|
  {
    if order == [] then [] else [m[order[0]]] + Values(order[1..], m)
  }

  /** Join handlers are called as they are stored. */
  function Plains(cs: seq<Command>): (es: seq<Entry>)
    ensures |es| == |cs| && forall i | 0 <= i < |cs| :: es[i] == Plain(cs[i])
    decreases |cs|
  {
    if cs == [] then [] else [Plain(cs[0])] + Plains(cs[1..])
  }

  /** `order` lists every key exactly once: one possible iteration order of a hash map. */
  predicate Enumerates<K>(order: seq<K>, keys: set<K>) {
    && (forall i, j | 0 <= i < j < |order| :: order[i] != order[j])
    && (forall k | k in order :: k in keys)
    && (forall k | k in keys :: k in order)
  }

  /** Some order of iteration; `HashMap` does not promise any particular one. */
  method KeyOrder<K>(keys: set<K>) returns (order: seq<K>)
    ensures Enumerates(order, keys)
  {
    order := [];
    var left := keys;
    while left != {}
      invariant left <= keys
      invariant forall k | k in order :: k in keys && k !in left
      invariant forall k | k in keys :: k in left || k in order
      invariant forall i, j | 0 <= i < j < |order| :: order[i] != order[j]
      decreases |left|
    {
      var k :| k in left;
      order := order + [k];
      left := left - {k};
    }
  }

  /** A record of a pass extends by the next entry run: what it returned, and where it left the counter. */
  lemma PassSnoc(es: seq<Entry>, i: nat, ev: Event, clk: Clock, outs: seq<seq<Hook>>, starts: seq<nat>,
                 more: seq<Hook>, next: nat)
    requires i < |es| && PassUpTo(es, i, ev, clk, outs, starts)
    requires more == EntryBatch(es[i], ev, clk, starts[i]) && next == starts[i] + EntryMinted(es[i], ev, clk)
    ensures PassUpTo(es, i + 1, ev, clk, outs + [more], starts + [next])
    ensures Concat(outs + [more]) == Concat(outs) + more
  {
    var outs', starts' := outs + [more], starts + [next];
    forall k | 0 <= k < i + 1
      ensures Returned(es, k, ev, clk, outs', starts') && Drew(es, k, ev, clk, starts')
    {
      if k < i {
        assert Returned(es, k, ev, clk, outs, starts) && Drew(es, k, ev, clk, starts);
      }
    }
    assert outs'[..i] == outs;
  }

  /** Runs the entries in turn and joins their updates in the same order. */
  method RunAll(es: seq<Entry>, ev: Event, clk: Clock, about: Bytes, u: Unique, mq: MQ, slot: SleepCmd.Slot, wars: WarCmd.WarTable)
    returns (updates: seq<Hook>, ghost outs: seq<seq<Hook>>, ghost starts: seq<nat>)
    requires u.Valid() && mq.Valid() && ValidWall(clk.wall)
    modifies u, mq, slot, wars
    ensures u.Valid() && mq.Valid()
    ensures Pass(es, ev, clk, outs, starts) && starts[0] == old(u.next)
    ensures updates == Concat(outs) && u.next == starts[|es|]
  {
    updates, outs, starts := [], [], [u.next];
    for i := 0 to |es|
      invariant u.Valid() && mq.Valid()
      invariant PassUpTo(es, i, ev, clk, outs, starts) && starts[0] == old(u.next)
      invariant updates == Concat(outs) && u.next == starts[i]
    {
      var more := RunEntry(es[i], ev, clk, about, u, mq, slot, wars);
      PassSnoc(es, i, ev, clk, outs, starts, more, u.next);
      updates, outs, starts := updates + more, outs + [more], starts + [u.next];
    }
  }

  /**
   * What answering a classified event leaves behind. A join invokes every
   * join handler; something said or done invokes every message handler; a
   * part invokes nothing. Every handler is called with the registry as it was
   * before the pass, and their batches, joined in the order they ran, are
   * applied once; the counter ends where the last handler left it.
   */
  twostate predicate Responded(ev: Event, clk: Clock, h: HookStorage, u: Unique, mq: MQ,
                               slot: SleepCmd.Slot, wars: WarCmd.WarTable, invoked: seq<Entry>,
                               msgOrder: seq<M>, joinOrder: seq<J>, outs: seq<seq<Hook>>, starts: seq<nat>)
    reads h, u, mq, slot, wars
  {
    && (ev.ty == Part ==>
          invoked == [] && mq.heap == old(mq.heap) && mq.timeout == old(mq.timeout) && CommandStateKept(slot, wars))
    && (ev.ty == Join ==>
          Enumerates(joinOrder, old(h.join).Keys) && invoked == Plains(Values(joinOrder, old(h.join))))
    && (ev.ty == Message || ev.ty == Action ==>
          Enumerates(msgOrder, old(h.msg).Keys) && invoked == Values(msgOrder, old(h.msg)))
    && Pass(invoked, ev, clk, outs, starts) && starts[0] == old(u.next)
    && h.Contents() == Applied(old(h.Contents()), Concat(outs))
    && u.next == starts[|invoked|]
  }

  /** A join: every join handler runs, in one enumeration of the map, and the joined batches are applied. */
  method RespondJoin(ev: Event, clk: Clock, about: Bytes,
                     h: HookStorage, u: Unique, mq: MQ, slot: SleepCmd.Slot, wars: WarCmd.WarTable)
    returns (invoked: seq<Entry>, ghost order: seq<J>, ghost outs: seq<seq<Hook>>, ghost starts: seq<nat>)
    requires u.Valid() && mq.Valid() && ValidWall(clk.wall)
    modifies h, u, mq, slot, wars
    ensures u.Valid() && mq.Valid()
    ensures Enumerates(order, old(h.join).Keys) && invoked == Plains(Values(order, old(h.join)))
    ensures Pass(invoked, ev, clk, outs, starts) && starts[0] == old(u.next) && u.next == starts[|invoked|]
    ensures h.Contents() == Applied(old(h.Contents()), Concat(outs))
  {
    var keys := KeyOrder(h.join.Keys);
    order := keys;
    invoked := Plains(Values(keys, h.join));
    var updates;
    updates, outs, starts := RunAll(invoked, ev, clk, about, u, mq, slot, wars);
    h.Apply(updates);
  }

  /** Something said or done: every message handler runs, in one enumeration of the map, and the joined batches are applied. */
  method RespondSpoken(ev: Event, clk: Clock, about: Bytes,
                       h: HookStorage, u: Unique, mq: MQ, slot: SleepCmd.Slot, wars: WarCmd.WarTable)
    returns (invoked: seq<Entry>, ghost order: seq<M>, ghost outs: seq<seq<Hook>>, ghost starts: seq<nat>)
    requires u.Valid() && mq.Valid() && ValidWall(clk.wall)
    modifies h, u, mq, slot, wars
    ensures u.Valid() && mq.Valid()
    ensures Enumerates(order, old(h.msg).Keys) && invoked == Values(order, old(h.msg))
    ensures Pass(invoked, ev, clk, outs, starts) && starts[0] == old(u.next) && u.next == starts[|invoked|]
    ensures h.Contents() == Applied(old(h.Contents()), Concat(outs))
  {
    var keys := KeyOrder(h.msg.Keys);
    order := keys;
    invoked := Values(keys, h.msg);
    var updates;
    updates, outs, starts := RunAll(invoked, ev, clk, about, u, mq, slot, wars);
    h.Apply(updates);
  }

  /** The body of `respond_recv` once the packet has been classified as `ev`. */
  method RespondEvent(ev: Event, clk: Clock, about: Bytes,
                      h: HookStorage, u: Unique, mq: MQ, slot: SleepCmd.Slot, wars: WarCmd.WarTable)
    returns (invoked: seq<Entry>, ghost msgOrder: seq<M>, ghost joinOrder: seq<J>,
             ghost outs: seq<seq<Hook>>, ghost starts: seq<nat>)
    requires u.Valid() && mq.Valid() && ValidWall(clk.wall)
    modifies h, u, mq, slot, wars
    ensures u.Valid() && mq.Valid()
    ensures Responded(ev, clk, h, u, mq, slot, wars, invoked, msgOrder, joinOrder, outs, starts)
  {
    invoked, msgOrder, joinOrder, outs, starts := [], [], [], [], [u.next];
    match ev.ty {
      case Join =>
        invoked, joinOrder, outs, starts := RespondJoin(ev, clk, about, h, u, mq, slot, wars);
      case Part =>
        h.Apply([]);
      case _ =>
        invoked, msgOrder, outs, starts := RespondSpoken(ev, clk, about, h, u, mq, slot, wars);
    }
  }

  /**
   * What answering a `recv` packet leaves behind. A packet that does not
   * classify as an event invokes nothing and leaves the registry, the
   * counter and the queue alone; an event is answered as `Responded`
   * describes.
   */
  twostate predicate RecvAnswered(msg: Packet.Message, text: Packet.MessageBody -> Bytes, clk: Clock,
                                  h: HookStorage, u: Unique, mq: MQ, slot: SleepCmd.Slot, wars: WarCmd.WarTable,
                                  invoked: seq<Entry>, msgOrder: seq<M>, joinOrder: seq<J>,
                                  outs: seq<seq<Hook>>, starts: seq<nat>)
    reads h, u, mq, slot, wars
  {
    && (TryFrom(msg, text).Unclassified? ==>
          && invoked == []
          && h.Contents() == old(h.Contents()) && u.next == old(u.next)
          && mq.heap == old(mq.heap) && mq.timeout == old(mq.timeout) && CommandStateKept(slot, wars))
    && (TryFrom(msg, text).Classified? ==>
          Responded(TryFrom(msg, text).ev, clk, h, u, mq, slot, wars, invoked, msgOrder, joinOrder, outs, starts))
  }

  /** `respond_recv`: classifies the packet and answers the event it carries, if any. */
  method RespondRecv(msg: Packet.Message, text: Packet.MessageBody -> Bytes, clk: Clock, about: Bytes,
                     h: HookStorage, u: Unique, mq: MQ, slot: SleepCmd.Slot, wars: WarCmd.WarTable)
    returns (invoked: seq<Entry>, ghost msgOrder: seq<M>, ghost joinOrder: seq<J>,
             ghost outs: seq<seq<Hook>>, ghost starts: seq<nat>)
    requires !TryFrom(msg, text).Panics?
    requires u.Valid() && mq.Valid() && ValidWall(clk.wall)
    modifies h, u, mq, slot, wars
    ensures u.Valid() && mq.Valid()
    ensures RecvAnswered(msg, text, clk, h, u, mq, slot, wars, invoked, msgOrder, joinOrder, outs, starts)
  {
    invoked, msgOrder, joinOrder, outs, starts := [], [], [], [], [u.next];
    match TryFrom(msg, text) {
      case Unclassified =>
      case Classified(ev) =>
        invoked, msgOrder, joinOrder, outs, starts := RespondEvent(ev, clk, about, h, u, mq, slot, wars);
    }
  }

  // ------------------------------------------------------ the fixed replies

  /** The packet `respond_ping` sends: `pong`, with no argument, attributes or body. */
  function PongBytes(): Bytes { "pong" + ("\n" + "\0") }

  lemma PongPacket()
    ensures Packet.Parse(PongBytes()) == Ok(Packet.Message("pong", None, map[], None))
  {
    var m := Packet.Message("pong", None, map[], None);
    assert Packet.IsName(m.name);
    assert Packet.Encoding(m, []) + [] == PongBytes();
    Packet.ParseIgnoresTrailing(m, [], []);
  }

  /** `respond_ping`: answers the server's keep-alive with one `pong`, due at once. */
  method RespondPing(msg: Packet.Message, mq: MQ, now: int)
    modifies mq
    ensures mq.heap == old(mq.heap) + multiset{Countdown(now, Packet.Message("pong", None, map[], None))}
    ensures mq.Valid()
  {
    PongPacket();
    mq.Push(Packet.FromBytes(PongBytes()), now);
  }

  /** The handshake reply: `login participle` with the bot's key `pk`, fixed when the bot is built. */
  function LoginBytes(pk: Bytes): Bytes {
    "login" + (" participle" + ("\n" + (("pk" + ("=" + (pk + "\n"))) + "\0")))
  }

  /** The packet `login participle` with the single attribute `pk`. */
  function Login(pk: Bytes): Packet.Message {
    Packet.Message("login", Some("participle"), map["pk" := pk], None)
  }

  /** The handshake reply is exactly what writing that packet produces. */
  lemma LoginEncoding(pk: Bytes)
    ensures Packet.Encoding(Login(pk), ["pk"]) + [] == LoginBytes(pk)
  {
    var m := Login(pk);
    var line := "pk" + ("=" + (pk + "\n"));
    assert Packet.AttrLines(m.attrs, ["pk"]) == line by {
      assert ["pk"][1..] == [];
      assert Packet.AttrLines(m.attrs, ["pk"][1..]) == [];
      assert line + [] == line;
    }
    assert Packet.ArgPart(m.argument) == " participle";
    assert Packet.Trailer(m.body) == "\0";
  }

  /** With a key that holds no newline, the handshake reply is `login participle` carrying exactly that key. */
  lemma LoginPacket(pk: Bytes)
    requires NL !in pk
    ensures Packet.Parse(LoginBytes(pk)) == Ok(Login(pk))
  {
    var m := Login(pk);
    assert Packet.WellFormed(m) by {
      assert Packet.IsName(m.name);
      assert Packet.IsKey("pk");
    }
    assert Packet.IsEnumeration(["pk"], m.attrs.Keys);
    LoginEncoding(pk);
    Packet.ParseIgnoresTrailing(m, ["pk"], []);
  }

  /** `respond_damnserver`: answers the server's greeting with the handshake, due at once. */
  method RespondDamnServer(msg: Packet.Message, pk: Bytes, mq: MQ, now: int)
    requires NL !in pk
    modifies mq
    ensures mq.heap == old(mq.heap) + multiset{Countdown(now, Login(pk))}
    ensures mq.Valid()
  {
    LoginPacket(pk);
    mq.Push(Packet.FromBytes(LoginBytes(pk)), now);
  }

  /** The packet sent once logged in: join the room `chat:devintesting`. */
  function JoinBytes(): Bytes { "join" + (" chat:devintesting" + ("\n" + "\0")) }

  lemma JoinPacket()
    ensures Packet.Parse(JoinBytes()) == Ok(Packet.Message("join", Some("chat:devintesting"), map[], None))
  {
    var m := Packet.Message("join", Some("chat:devintesting"), map[], None);
    assert Packet.IsName(m.name);
    assert Packet.Encoding(m, []) + [] == JoinBytes() by {
      assert Packet.ArgPart(m.argument) == " chat:devintesting";
    }
    Packet.ParseIgnoresTrailing(m, [], []);
  }

  /** `respond_login`: joins the room when the server says `e=ok`, and sends nothing otherwise. */
  method RespondLogin(msg: Packet.Message, mq: MQ, now: int)
    requires mq.Valid()
    modifies mq
    ensures mq.Valid()
    ensures Packet.GetAttr(msg, "e") == Some("ok") ==>
              mq.heap == old(mq.heap) + multiset{Countdown(now, Packet.Message("join", Some("chat:devintesting"), map[], None))}
    ensures Packet.GetAttr(msg, "e") != Some("ok") ==> mq.heap == old(mq.heap) && mq.timeout == old(mq.timeout)
  {
    if Packet.GetAttr(msg, "e") == Some("ok") {
      JoinPacket();
      mq.Push(Packet.FromBytes(JoinBytes()), now);
    }
  }

  // ---------------------------------------------------------- the dispatch

  /** The callbacks of `ACTIONS`. */
  datatype Action = OnDamnServer | OnLogin | OnPing | OnRecv

  /** `ACTIONS`: the packet names the bot answers, each with its callback. */
  const Actions: map<Bytes, Action> :=
    map["dAmnServer" := OnDamnServer, "login" := OnLogin, "ping" := OnPing, "recv" := OnRecv]

  /** What the callbacks of `ACTIONS` that answer with a fixed packet queue. */
  twostate predicate Replied(a: Action, msg: Packet.Message, pk: Bytes, now: int, mq: MQ)
    reads mq
  {
    && (a == OnPing ==> mq.heap == old(mq.heap) + multiset{Countdown(now, Packet.Message("pong", None, map[], None))})
    && (a == OnDamnServer ==> mq.heap == old(mq.heap) + multiset{Countdown(now, Login(pk))})
    && (a == OnLogin && Packet.GetAttr(msg, "e") == Some("ok") ==>
          mq.heap == old(mq.heap) + multiset{Countdown(now, Packet.Message("join", Some("chat:devintesting"), map[], None))})
    && (a == OnLogin && Packet.GetAttr(msg, "e") != Some("ok") ==> mq.heap == old(mq.heap))
  }

  /** The callbacks of `ACTIONS` that answer with a fixed packet, by the action `ACTIONS` gives. */
  method Reply(a: Action, msg: Packet.Message, pk: Bytes, now: int, mq: MQ)
    requires a != OnRecv && (a == OnDamnServer ==> NL !in pk) && mq.Valid()
    modifies mq
    ensures mq.Valid() && Replied(a, msg, pk, now, mq)
  {
    if a == OnDamnServer {
      RespondDamnServer(msg, pk, mq, now);
    } else if a == OnLogin {
      RespondLogin(msg, mq, now);
    } else {
      RespondPing(msg, mq, now);
    }
  }

  /**
   * One incoming packet: the callback `ACTIONS` lists under its name, if
   * any; a packet of any other name is ignored.
   */
  method Handle(msg: Packet.Message, text: Packet.MessageBody -> Bytes, pk: Bytes, clk: Clock, about: Bytes,
                h: HookStorage, u: Unique, mq: MQ, slot: SleepCmd.Slot, wars: WarCmd.WarTable)
    returns (invoked: seq<Entry>, ghost msgOrder: seq<M>, ghost joinOrder: seq<J>,
             ghost outs: seq<seq<Hook>>, ghost starts: seq<nat>)
    requires msg.name in Actions && Actions[msg.name] == OnDamnServer ==> NL !in pk
    requires msg.name in Actions && Actions[msg.name] == OnRecv ==> !TryFrom(msg, text).Panics?
    requires u.Valid() && mq.Valid() && ValidWall(clk.wall)
    modifies h, u, mq, slot, wars
    ensures u.Valid() && mq.Valid()
    ensures msg.name !in Actions ==>
              invoked == [] && h.Contents() == old(h.Contents()) && u.next == old(u.next)
              && mq.heap == old(mq.heap) && mq.timeout == old(mq.timeout) && CommandStateKept(slot, wars)
    ensures msg.name in Actions && Actions[msg.name] != OnRecv ==>
              && invoked == [] && h.Contents() == old(h.Contents()) && u.next == old(u.next)
              && CommandStateKept(slot, wars) && Replied(Actions[msg.name], msg, pk, clk.instant, mq)
    ensures msg.name in Actions && Actions[msg.name] == OnRecv ==>
              RecvAnswered(msg, text, clk, h, u, mq, slot, wars, invoked, msgOrder, joinOrder, outs, starts)
  {
    invoked, msgOrder, joinOrder, outs, starts := [], [], [], [], [u.next];
    if msg.name in Actions {
      var a := Actions[msg.name];
      if a == OnRecv {
        invoked, msgOrder, joinOrder, outs, starts := RespondRecv(msg, text, clk, about, h, u, mq, slot, wars);
      } else {
        Reply(a, msg, pk, clk.instant, mq);
      }
    }
  }
}
