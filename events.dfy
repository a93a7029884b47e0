/**
 * The events of src/event.rs: a `recv` packet classified as something said,
 * done, a join or a part, and the reply operations handlers use. A reply is
 * a `send` packet to the event's chatroom, queued on the delivery queue.
 *
 * `MessageBody::to_string`, which turns a body into the text of the event,
 * is not part of this model and is a parameter (`text`). Text is handled as
 * bytes.
 */
module Events {
  import opened Wrappers
  import opened ByteStrings
  import Packet
  import opened MessageQueue

  datatype EType = Join | Part | Message | Action

  datatype Event = Event(ty: EType, chatroom: Bytes, sender: Bytes, message: Bytes)

  const NanosPerSecond: nat := 1_000_000_000

  /** Local wall-clock time as chrono presents it: hours since the epoch, then minute, second and nanosecond. */
  datatype Wall = Wall(hour: nat, minute: nat, second: nat, nanos: nat)

  predicate ValidWall(w: Wall) {
    w.minute < 60 && w.second < 60 && w.nanos < 1_000_000_000
  }

  /** A wall-clock time as nanoseconds since the epoch. */
  function Nanos(w: Wall): int {
    ((w.hour * 60 + w.minute) * 60 + w.second) * 1_000_000_000 + w.nanos
  }

  /** One reading of both clocks a handler consults: `Instant::now()` (nanoseconds) and `Local::now()`. */
  datatype Clock = Clock(instant: int, wall: Wall)

  /** The outcome of `Event::try_from`; the `expect`s on a recognised kind are panics, not errors. */
  datatype Classified = Classified(ev: Event) | Unclassified | Panics

  /** `MessageIsh::submessage` on a packet: its body read as a sub-packet. */
  function SubmessageOf(msg: Packet.Message): Result<Packet.SubMessage, ()> {
    match msg.body
    case Some(b) => Packet.Submessage(b)
    case None => Err(())
  }

  /** The sub-packet names `try_from` recognises. */
  predicate Known(name: Option<Bytes>) {
    name == Some("msg") || name == Some("action") || name == Some("join") || name == Some("part")
  }

  /** Said or done: the sender is the `from` attribute and the text is the decoded body, if any. */
  predicate Spoken(name: Option<Bytes>) {
    name == Some("msg") || name == Some("action")
  }

  /** `Event::try_from` on a `recv` packet. */
  function TryFrom(msg: Packet.Message, text: Packet.MessageBody -> Bytes): (r: Classified)
    ensures r.Unclassified? <==> SubmessageOf(msg).Err? || !Known(SubmessageOf(msg).value.name)
    ensures r.Panics? <==>
              && SubmessageOf(msg).Ok?
              && var sub := SubmessageOf(msg).value;
              && Known(sub.name)
              && (msg.argument.None? || (Spoken(sub.name) && "from" !in sub.attrs) || (!Spoken(sub.name) && sub.argument.None?))
    ensures r.Classified? ==>
              var sub := SubmessageOf(msg).value;
              && msg.argument == Some(r.ev.chatroom)
              && (r.ev.ty == Message <==> sub.name == Some("msg"))
              && (r.ev.ty == Action <==> sub.name == Some("action"))
              && (r.ev.ty == Join <==> sub.name == Some("join"))
              && (r.ev.ty == Part <==> sub.name == Some("part"))
              && (Spoken(sub.name) ==> r.ev.sender == sub.attrs["from"])
              && (!Spoken(sub.name) ==> Some(r.ev.sender) == sub.argument && r.ev.message == [])
  {
    match SubmessageOf(msg)
    case Err(_) => Unclassified
    case Ok(sub) =>
      if Spoken(sub.name) then
        if msg.argument.None? || "from" !in sub.attrs then Panics
        else
          var said := match sub.body case Some(b) => text(b) case None => [];
          Classified(Event(if sub.name == Some("msg") then Message else Action, msg.argument.value, sub.attrs["from"], said))
      else if sub.name == Some("join") || sub.name == Some("part") then
        if msg.argument.None? || sub.argument.None? then Panics
        else Classified(Event(if sub.name == Some("join") then Join else Part, msg.argument.value, sub.argument.value, []))
      else Unclassified
  }

  /**
   * What the server sends for a line said in a room: `recv <room>`, and in
   * its body the sub-packet `msg main` with the speaker in `from` and the
   * line as its own body. It is classified as a Message event from that
   * speaker carrying the decoded line.
   */
  lemma ClassifySaid(room: Bytes, from: Bytes, line: Packet.MessageBody, text: Packet.MessageBody -> Bytes)
    requires Packet.IsValue(from) && NulTerminated(line.bytes)
    ensures
      var sub := Packet.Message("msg", Some("main"), map["from" := from], Some(line));
      var body := Packet.Encoding(sub, ["from"]);
      TryFrom(Packet.Message("recv", Some(room), map[], Some(Packet.MessageBody(body))), text)
        == Classified(Event(Message, room, from, text(line)))
  {
    var sub := Packet.Message("msg", Some("main"), map["from" := from], Some(line));
    var body := Packet.Encoding(sub, ["from"]);
    assert Packet.IsName(sub.name);
    assert Packet.IsKey("from");
    Packet.SubmessageOfEncoding(sub, ["from"], []);
    assert body + [] == body;
  }

  /** `word`: the text before the first space, and the text after it. */
  function Word(s: Bytes): (r: (Bytes, Bytes))
    ensures SP !in r.0
    ensures SP in s ==> |r.0| < |s| && r.0 == s[..|r.0|] && s[|r.0|] == SP && r.1 == s[|r.0| + 1..]
    ensures SP !in s ==> r == (s, [])
  {
    match Position(s, SP)
    case None => (s, [])
    case Some(k) => (s[..k], s[k + 1..])
  }

  /** Splitting at the first space undoes joining with a space a word that has none. */
  lemma WordOfJoin(a: Bytes, b: Bytes)
    requires SP !in a
    ensures Word(a + ([SP] + b)) == (a, b)
  {
    var s := a + ([SP] + b);
    PositionAfter(a, SP, b);
    assert s[..|a|] == a && s[|a| + 1..] == b;
  }

  /** `Event::content`: the message without its first word. */
  function Content(ev: Event): (r: Bytes)
    ensures SP !in ev.message ==> r == []
    ensures SP in ev.message ==>
              var k := |ev.message| - |r| - 1;
              0 <= k && ev.message[k] == SP && SP !in ev.message[..k] && r == ev.message[k + 1..]
  {
    Word(ev.message).1
  }

  /** The content of `!cmd args` is `args`. */
  lemma ContentOfCommand(ev: Event, cmd: Bytes, args: Bytes)
    requires SP !in cmd && ev.message == cmd + ([SP] + args)
    ensures Content(ev) == args
  {
    WordOfJoin(cmd, args);
  }

  /** The body `msg main\n\n<text>\0` of a reply: the sub-packet `msg main` whose own body is the text. */
  function ReplyBody(text: Bytes): Bytes {
    "msg" + (" main" + ("\n" + ("\n" + (text + [NUL]))))
  }

  /** The body of a reply ends in its only NUL exactly when the text holds none. */
  lemma ReplyBodyNulTerminated(text: Bytes)
    ensures NulTerminated(ReplyBody(text)) <==> NUL !in text
  {
    var line := text + [NUL];
    var b := ReplyBody(text);
    assert b[..|b| - 1] == "msg main\n\n" + text;
    if NUL !in text {
      assert line[..|line| - 1] == text;
      NulTerminatedAppend("\n", line);
      NulTerminatedAppend("\n", "\n" + line);
      NulTerminatedAppend(" main", "\n" + ("\n" + line));
      NulTerminatedAppend("msg", " main" + ("\n" + ("\n" + line)));
    }
  }

  /** `Event::mk`: a `send` packet to the event's chatroom. */
  function Mk(ev: Event, text: Bytes): (r: Packet.Message)
    ensures r.name == "send" && r.argument == Some(ev.chatroom) && r.attrs == map[] && r.body.Some?
  {
    Packet.Message("send", Some(ev.chatroom), map[], Some(Packet.MessageBody(ReplyBody(text))))
  }

  /**
   * A reply is a well-formed packet whose body reads back as the sub-packet
   * `msg main` carrying the text, provided the text holds no NUL and the
   * room name no newline.
   */
  lemma MkReadsBack(ev: Event, text: Bytes)
    requires NUL !in text && NL !in ev.chatroom
    ensures Packet.WellFormed(Mk(ev, text))
    ensures Packet.Submessage(Mk(ev, text).body.value)
              == Ok(Packet.SubMessage(Some("msg"), Some("main"), map[], Some(Packet.MessageBody(text + [NUL]))))
  {
    var line := text + [NUL];
    assert line[..|line| - 1] == text;
    var sub := Packet.Message("msg", Some("main"), map[], Some(Packet.MessageBody(line)));
    assert Packet.WellFormed(sub) by {
      assert Packet.IsName(sub.name);
    }
    assert Packet.IsName("send");
    assert NulTerminated(ReplyBody(text)) by {
      NulTerminatedAppend("\n", line);
      NulTerminatedAppend("\n", "\n" + line);
      NulTerminatedAppend(" main", "\n" + ("\n" + line));
      NulTerminatedAppend("msg", " main" + ("\n" + ("\n" + line)));
    }
    assert Packet.Encoding(sub, []) + [] == ReplyBody(text) by {
      assert Packet.AttrLines(sub.attrs, []) == [];
      assert Packet.ArgPart(sub.argument) == " main";
    }
    Packet.SubmessageOfEncoding(sub, [], []);
  }

  /** `Event::respond`: the reply is due at once; the instant is handed back. */
  method Respond(ev: Event, text: Bytes, mq: MQ, now: int) returns (at: int)
    modifies mq
    ensures at == now
    ensures mq.heap == old(mq.heap) + multiset{Countdown(now, Mk(ev, text))}
    ensures mq.Valid()
  {
    mq.Push(Mk(ev, text), now);
    at := now;
  }

  /** `Event::respond_in`: the reply is due `d` from now. */
  method RespondIn(ev: Event, text: Bytes, d: nat, mq: MQ, now: int) returns (at: int)
    modifies mq
    ensures at == now + d
    ensures mq.heap == old(mq.heap) + multiset{Countdown(now + d, Mk(ev, text))}
    ensures mq.Valid()
  {
    mq.Schedule(Mk(ev, text), d, now);
    at := now + d;
  }

  /** `Event::respond_at`: the reply is due at instant `i`. */
  method RespondAt(ev: Event, text: Bytes, i: int, mq: MQ, now: int) returns (at: int)
    modifies mq
    ensures at == i
    ensures mq.heap == old(mq.heap) + multiset{Countdown(i, Mk(ev, text))}
    ensures mq.Valid()
  {
    mq.ScheduleAt(Mk(ev, text), i, now);
    at := i;
  }

  /** The text of a highlighted reply: the sender's name, a colon and a space, then the text. */
  function Highlight(sender: Bytes, text: Bytes): (r: Bytes)
    ensures StartsWith(r, sender + ": ") && r[|sender| + 2..] == text
  {
    sender + (": " + text)
  }

  /** The first word of a highlighted line is the sender with its colon. */
  lemma HighlightWord(sender: Bytes, text: Bytes)
    ensures SP !in sender ==> Word(sender + (": " + text)) == (sender + ":", text)
  {
    if SP !in sender {
      assert SP !in sender + ":";
      WordOfJoin(sender + ":", text);
      assert (sender + ":") + ([SP] + text) == sender + (": " + text);
    }
  }

  /** `Event::respond_highlight`: a reply addressed to the sender. */
  method RespondHighlight(ev: Event, text: Bytes, mq: MQ, now: int) returns (at: int)
    modifies mq
    ensures at == now
    ensures mq.heap == old(mq.heap) + multiset{Countdown(now, Mk(ev, Highlight(ev.sender, text)))}
    ensures mq.Valid()
  {
    at := Respond(ev, Highlight(ev.sender, text), mq, now);
  }

  /** `Event::cancel`: takes back a reply that is still waiting, by the instant it is due. */
  method Cancel(ev: Event, i: int, mq: MQ, now: int) returns (r: Option<Packet.Message>)
    requires mq.Valid()
    modifies mq
    ensures mq.Valid()
    ensures r.None? ==> (forall c | c in old(mq.heap) :: c.stamp != i) && mq.heap == old(mq.heap)
    ensures r.Some? ==> Countdown(i, r.value) in old(mq.heap) && mq.heap == old(mq.heap) - multiset{Countdown(i, r.value)}
  {
    r := mq.Unschedule(i, now);
  }
}
