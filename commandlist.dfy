/** The `commands` command of src/commands/commands.rs: lists the command words. */
module CommandList {
  import opened ByteStrings
  import opened Hooks
  import opened MessageQueue
  import opened Events
  import Commands

  /** The reply text: the names joined with a comma and a space. */
  function ListText(names: seq<Bytes>): Bytes {
    "Commands are: " + ByteStrings.Join(names, ", ")
  }

  /** With the default table, the reply lists the four words in table order. */
  lemma DefaultListText()
    ensures ListText(Commands.CmdNames) == "Commands are: " + ("about" + (", " + ("commands" + (", " + ("echo" + (", " + "ping"))))))
  {
    var ns := Commands.CmdNames;
    assert ns[1..][1..][1..] == ["ping"];
    assert ByteStrings.Join(ns[1..][1..], ", ") == "echo" + (", " + "ping");
    assert ByteStrings.Join(ns[1..], ", ") == "commands" + (", " + ("echo" + (", " + "ping")));
  }

  /**
   * `commands(names)`: the handler replies to the sender with the names it
   * captured when it was built, and returns no updates.
   */
  method ListCommands(names: seq<Bytes>, ev: Event, mq: MQ, now: int) returns (r: seq<Hook>)
    modifies mq
    ensures r == []
    ensures mq.heap == old(mq.heap) + multiset{Countdown(now, Mk(ev, Highlight(ev.sender, ListText(names))))}
    ensures mq.Valid()
  {
    var _ := RespondHighlight(ev, ListText(names), mq, now);
    r := [];
  }
}
