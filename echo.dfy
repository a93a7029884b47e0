/**
 * The `echo` command of src/commands/echo.rs. It replies with the message
 * from a fixed byte offset, the length of `!echo `.
 */
module Echo {
  import opened Wrappers
  import opened ByteStrings
  import opened Hooks
  import opened MessageQueue
  import opened Events

  /** The bot's own name, whose messages `echo` ignores. */
  const BotName: Bytes := "participle"

  /** The reply as src/commands/echo.rs computes it: the message from byte 6 on. */
  function EchoAsWritten(ev: Event): (r: Option<Bytes>)
    ensures r.None? <==> ev.sender == BotName || |ev.message| <= 6
  {
    if ev.sender == BotName || |ev.message| <= 6 then None else Some(ev.message[6..])
  }

  /** Under the `!` trigger the offset is right: `!echo <text>` echoes the text. */
  lemma EchoAsWrittenBang(ev: Event, text: Bytes)
    requires ev.sender != BotName && text != [] && ev.message == "!echo " + text
    ensures EchoAsWritten(ev) == Some(text)
  {
    assert ev.message[6..] == text;
  }

  /**
   * Under the other trigger the offset is wrong: `participle: echo hi` from
   * another user is answered with `iple: echo hi`.
   */
  lemma EchoAsWrittenAddressed(ev: Event, text: Bytes)
    requires ev.sender != BotName && ev.message == "participle: echo " + text
    ensures EchoAsWritten(ev) == Some("iple: echo " + text)
    ensures EchoAsWritten(ev) != Some(text)
  {
    assert ev.message[6..] == "iple: echo " + text;
  }

  /** Where the echoed text starts: after whichever trigger the message opens with, the word `echo` and a space. */
  function Offset(message: Bytes): nat {
    TriggerLength(message) + 5
  }

  /** The evidently intended reply: the text that follows the command, whichever trigger introduced it. */
  function EchoReply(ev: Event): (r: Option<Bytes>)
    ensures r.None? <==> ev.sender == BotName || |ev.message| <= Offset(ev.message)
  {
    var k := Offset(ev.message);
    if ev.sender == BotName || |ev.message| <= k then None else Some(ev.message[k..])
  }

  /** Under either trigger, `echo <text>` echoes the text. */
  lemma EchoReplyOfCommand(ev: Event, i: nat, text: Bytes)
    requires i < |Triggers| && ev.sender != BotName && text != []
    requires ev.message == Triggers[i] + ("echo " + text)
    ensures EchoReply(ev) == Some(text)
  {
    if i == 0 {
      assert !StartsWith(ev.message, Triggers[1]) by {
        assert ev.message[0] == '!';
      }
    } else {
      assert StartsWith(ev.message, Triggers[1]);
    }
    assert ev.message[|Triggers[i]| + 5..] == text;
  }

  /** On messages under the `!` trigger the correction changes nothing. */
  lemma EchoReplyAgrees(ev: Event)
    requires StartsWith(ev.message, Triggers[0])
    ensures EchoReply(ev) == EchoAsWritten(ev)
  {
    assert !StartsWith(ev.message, Triggers[1]) by {
      assert ev.message[0] == '!';
    }
  }

  /** `echo`: replies with the intended text, if there is one, and returns no updates. */
  method Echo(ev: Event, mq: MQ, now: int) returns (r: seq<Hook>)
    requires mq.Valid()
    modifies mq
    ensures r == [] && mq.Valid()
    ensures EchoReply(ev).None? ==> mq.heap == old(mq.heap) && mq.timeout == old(mq.timeout)
    ensures EchoReply(ev).Some? ==> mq.heap == old(mq.heap) + multiset{Countdown(now, Mk(ev, EchoReply(ev).value))}
  {
    var k := TriggerLength(ev.message) + 5;
    if ev.sender == BotName || |ev.message| <= k {
      return [];
    }
    var _ := Respond(ev, ev.message[k..], mq, now);
    r := [];
  }
}
