# marsipan, modelled in Dafny

marsipan is a bot for the dAmn chat network. It speaks dAmn's text packet
format over TCP and answers commands typed in a chatroom. This project models
the core of the bot and proves properties of that model:

- **Wire format** (`Packet`, `Nom`): the packet grammar of the `damnpacket`
  crate. A packet is a name, an optional argument, `key=value` lines, and
  either a NUL or a newline followed by a NUL-terminated body. A body can be
  read again as a sub-packet. The nom combinators the grammar is built from
  are modelled with their three outcomes: done, error and incomplete.
  `as_bytes` is the encoder. Its encoding of any well-formed packet parses
  back to the same packet, whatever order the attribute map iterates in.
- **Tablumps** (`Tablumps`): dAmn's inline markup. The model covers the
  tokenizer, the tag table with its fixed arities, `link`, the merging of
  adjacent literals (`collapse`) and rendering to HTML-like text.
- **Framing** (`Codec`): one frame is cut off the front of the read buffer at
  the first NUL and parsed. A packet's bytes are appended to the write buffer.
- **Events** (`Events`): a `recv` packet is classified as something said, an
  action, a join or a part. The first word is split off the text. A reply is
  a `send` packet queued on the delivery queue.
- **Delivery queue** (`MessageQueue`): a heap of packets ordered by the
  instant each is due, with the comparison reversed so the earliest comes
  first. One timer is armed for that earliest entry.
- **Handler registry** (`Hooks`, `Handler`): message handlers and join
  handlers are kept under handles drawn from one counter. Commands sit behind
  the trigger gate (`!` or `participle: `). Every handler of a pass sees the
  registry as it was. Their batches of updates are joined and applied once,
  in order.
- **Commands** (`Commands`, `CommandList`, `Echo`, `Ping`, `FooBar`, `Sleep`,
  `WordWar`): the default command table and each command's reply, the
  updates it returns, and the state it keeps.

Closures are modelled as the datatype `Hooks.Command`, which names each
handler together with what it captured. The globals the source shares are
explicit objects passed to the operations:

- the handle counter (`Hooks.Unique`);
- the sleep slot (`Sleep.Slot`);
- the war table (`WordWar.WarTable`);
- the delivery queue (`MessageQueue.MQ`).

Time is integer nanoseconds. Each operation receives one clock reading
(`Events.Clock`), which stands for every read of the clock the operation
makes. The source reads the clock several times within one command (in
`ping`, `sleep` and `wordwar`); the time that passes between those reads is
not modelled. Bytes are `seq<byte>`, where a byte is
a `char` no greater than 0xFF, so text is handled byte by byte.

src/commands/mod.rs declares only `about`, `commands`, `echo` and `ping` as
modules. The `sleep`, `foobar` and `wordwar` files are therefore not
compiled. They are still modelled, as handler kinds that a registry can hold.

## Model

| member | source | states |
|---|---|---|
| Nom.Tag | damnpacket/src/lib.rs:105 | `tag!` succeeds exactly when the input starts with the literal, leaving the rest; a proper prefix of the literal is incomplete, anything else an error |
| Nom.TakeWhile1 | damnpacket/src/lib.rs:104 | `alpha`/`alphanumeric`/`digit`: incomplete exactly on empty input, an error exactly when the first byte does not qualify, else a maximal non-empty qualifying run |
| Nom.TakeUntil | damnpacket/src/lib.rs:106 | `take_until!` never errs: incomplete exactly when the needle is absent, else the needle-free text before its first occurrence, the needle left unread |
| Nom.TakeUntil1 | damnpacket/src/lib.rs:133 | like `take_until!` but an empty result is an error; short input (fewer than two bytes) is incomplete |
| Nom.TakeTill | damnpacket/src/lib.rs:119 | `take_till!` always succeeds with the needle-free prefix, stopping at the needle or the end |
| Nom.BeU8 | damnpacket/src/lib.rs:113 | one byte, incomplete exactly on empty input, never an error |
| Packet.Attr | damnpacket/src/lib.rs:103-110 | a parsed attribute is an alphanumeric key and a newline-free value, and the input was exactly its `key=value\n` line followed by the rest; input not starting with an alphanumeric byte is an error |
| Packet.Attrs | damnpacket/src/lib.rs:139 | `many0!(attr)` never errs; on success the input is the parsed lines followed by the rest, every pair well formed |
| Packet.Collect | damnpacket/src/lib.rs:145 | the key of the last pair is in the map with that pair's value: a later pair for a key wins |
| Packet.CollectHasKeys | damnpacket/src/lib.rs:145 | every key a pair lists is in the collected map |
| Packet.CollectFromLast | damnpacket/src/lib.rs:145 | every key of the collected map carries the value of the last pair listing it |
| Packet.CollectWellFormed | damnpacket/src/lib.rs:145 | collecting well-formed pairs into a map gives well-formed attributes |
| Packet.CollectPairs | damnpacket/src/lib.rs:145 | the collected map has exactly the listed keys, each with its value from the source map (a later pair for a key replaces an earlier one) |
| Packet.CollectEnumeration | damnpacket/src/lib.rs:145 | collecting the pairs of any enumeration of a map gives that map back |
| Packet.PBody | damnpacket/src/lib.rs:112-127 | after a newline the body is every byte up to and including the next NUL; any other byte means no body and that byte is consumed; never an error |
| Packet.ParseMessage | damnpacket/src/lib.rs:129-148 | a parsed packet is well formed (alphabetic name, newline-free argument, well-formed attributes, NUL-terminated body) and consumes at least one byte |
| Packet.ParseSubmessage | damnpacket/src/lib.rs:150-178 | a sub-packet read from attribute lines has neither name nor argument and at least one attribute |
| Packet.ParseSubmessageWellFormed | damnpacket/src/lib.rs:150-178 | a sub-packet read from a body is well formed: with a name, as a packet is; without one, no argument, at least one well-formed attribute and a NUL-terminated body if any |
| Packet.Submessage | damnpacket/src/lib.rs:32 | `submessage` yields only well-formed sub-packets |
| Packet.Parse | damnpacket/src/lib.rs:180-182 | `parse` yields only well-formed packets |
| Packet.FromBytes | damnpacket/src/lib.rs:37-41 | `Message::from` is the packet `parse_message` reads from the front of the bytes |
| Packet.GetAttr | damnpacket/src/lib.rs:50-53 | present exactly when the key is in the map, with its value |
| Packet.HasAttr | damnpacket/src/lib.rs:55-59 | true exactly when the key is present with that value |
| Packet.AsBytes | damnpacket/src/lib.rs:61-82 | the bytes are the name, ` arg` if any, a newline, one `k=v\n` line per attribute in some enumeration of the map, then a newline and the body or a lone NUL; a well-formed packet's bytes parse back to the packet |
| Packet.AttrOfLine | damnpacket/src/lib.rs:103-110 | the line of a well-formed pair is read back as that pair, whatever follows |
| Packet.AttrsOfLines | damnpacket/src/lib.rs:139 | encoded attribute lines are read back as the same pairs, stopping at the trailer |
| Packet.PBodyOfTrailer | damnpacket/src/lib.rs:112-127 | the trailer `as_bytes` writes is read back as the same body, or none |
| Packet.ArgumentOfHeader | damnpacket/src/lib.rs:131-138 | after the name, the encoded argument (or its absence) and the header newline are read back |
| Packet.ParseEncoding | damnpacket/src/lib.rs:129-148 | parsing the encoding of a well-formed packet, in any attribute order, gives the packet back and leaves what followed |
| Packet.ParseRoundTrip | damnpacket/src/lib.rs:61-82 | parse, then `as_bytes`, then parse gives the first result again |
| Packet.ParseIgnoresTrailing | damnpacket/src/lib.rs:180-182 | bytes after a complete packet are not looked at |
| Packet.SubmessageOfEncoding | damnpacket/src/lib.rs:167-176 | a body holding a full packet is read back as a sub-packet with its name, argument, attributes and body |
| Packet.SubmessageOfAttrs | damnpacket/src/lib.rs:151-165 | a body of attribute lines is read back as a name-less sub-packet with those attributes and body |
| Packet.ParseBasic | damnpacket/src/lib.rs:184-193 | the library's `parse_basic` example: name, argument, one attribute, and a body keeping its NUL |
| Packet.BasicEncoding | damnpacket/src/lib.rs:184-193 | encoding the `parse_basic` packet gives back exactly its input bytes |
| Packet.ParseNoBody | damnpacket/src/lib.rs:195-204 | the `parse_no_body` example: attribute lines then a NUL give no body |
| Packet.ParseNoAttrs | damnpacket/src/lib.rs:206-215 | the `parse_no_attrs` example: a header then a NUL gives no attributes and no body |
| Packet.ParseNoArg | damnpacket/src/lib.rs:217-226 | the `parse_no_arg` example: no space after the name means no argument |
| Packet.ParseSub | damnpacket/src/lib.rs:228-242 | the `parse_sub` example: the body reads as a name-less sub-packet with attributes `a=b`, `c=d` |
| Packet.SubBody | damnpacket/src/lib.rs:234-241 | the body `a=b\nc=d\n\0` read as a sub-packet has two attributes and no body |
| Tablumps.TagLiteralShape | damnpacket/src/tablumps.rs:49-172 | every tag literal starts with `&` and ends in its only tab |
| Tablumps.TagLiteralInjective | damnpacket/src/tablumps.rs:49-172 | different alternatives have different literals |
| Tablumps.PrefixFree | damnpacket/src/tablumps.rs:49-172 | no tag literal is a prefix of another |
| Tablumps.Arg | damnpacket/src/tablumps.rs:174-178 | `arg` never errs: incomplete exactly when no tab remains, else the tab-free text before the next tab, the tab consumed |
| Tablumps.ArgOfBytes | damnpacket/src/tablumps.rs:174-178 | a tab-free argument followed by a tab is read back |
| Tablumps.Args | damnpacket/src/tablumps.rs:49-172 | `n` arguments are exactly `n` tab-free texts each followed by its tab |
| Tablumps.ArgsOfBytes | damnpacket/src/tablumps.rs:49-172 | `n` tab-free arguments, each written with its tab, are read back |
| Tablumps.LinkParse | damnpacket/src/tablumps.rs:180-191 | `link` yields a link whose bytes are exactly what it consumed: `&link\t`, the address, then `&\t` for no text or the text followed by `&\t` |
| Tablumps.Alt | damnpacket/src/tablumps.rs:49-172 | an alternative fails on input that neither starts with its literal nor is a prefix of it; on success the tag has that alternative's kind and arity and its bytes were consumed |
| Tablumps.Lumps | damnpacket/src/tablumps.rs:49-172 | the first alternative that does not fail decides; a result is a valid tag whose bytes were consumed |
| Tablumps.ParseLump | damnpacket/src/tablumps.rs:49-172 | `lump` yields a valid tag (right arity, tab-free arguments) whose bytes were consumed |
| Tablumps.LumpByLiteral | damnpacket/src/tablumps.rs:49-172 | the order of the alternatives does not matter: on input starting with an alternative's literal, `lump` is that alternative's result |
| Tablumps.LumpRoundTrip | damnpacket/src/tablumps.rs:49-191 | every tag `lump` can produce is read back from its bytes, whatever follows |
| Tablumps.Tok | damnpacket/src/tablumps.rs:39-43 | `tok` never errs; it yields an `&`-free run stopping before the next `&`, a tag, or a lone `&`; it is incomplete only on empty input or on an incomplete tag |
| Tablumps.Tokens | damnpacket/src/tablumps.rs:37 | `many0!(tok)` consumes the whole input and the tokens' bytes are exactly the input |
| Tablumps.CoalesceSource | damnpacket/src/tablumps.rs:250-272 | `collapse` keeps the bytes of the text |
| Tablumps.CoalesceNormal | damnpacket/src/tablumps.rs:250-272 | `collapse` never returns an empty literal or two adjacent literals |
| Tablumps.CoalesceTags | damnpacket/src/tablumps.rs:250-272 | `collapse` keeps every tag, in order |
| Tablumps.CoalesceOfNormal | damnpacket/src/tablumps.rs:250-272 | a sequence already in normal form is left unchanged |
| Tablumps.CoalesceIdempotent | damnpacket/src/tablumps.rs:250-272 | collapsing twice is collapsing once |
| Tablumps.Collapse | damnpacket/src/tablumps.rs:250-272 | the loop pushing into `new` and resetting `left` computes the fold whose properties the lemmas above state |
| Tablumps.Tablumps | damnpacket/src/tablumps.rs:37 | `tablumps` never errs; on success its tokens are in normal form and their bytes are the input |
| Tablumps.TokOfText | damnpacket/src/tablumps.rs:39-47 | a non-empty `&`-free run followed by `&` or the end is read as one literal |
| Tablumps.TokOfLump | damnpacket/src/tablumps.rs:39-43 | a valid tag's bytes are read as that tag |
| Tablumps.TokensOfSource | damnpacket/src/tablumps.rs:37-43 | a token sequence with no two adjacent literals is read back from its bytes |
| Tablumps.TablumpsRoundTrip | damnpacket/src/tablumps.rs:37 | a normal sequence of `&`-free literals and valid tags is what `tablumps` makes of its bytes |
| Tablumps.ClosersAsHtml | damnpacket/src/tablumps.rs:197-240 | every closer takes no argument and renders as `</x>`, with `</acronym>` for `acro` |
| Tablumps.BareOpenersAsHtml | damnpacket/src/tablumps.rs:197-240 | every opener without arguments renders as `<x>`, with `<br/>` for `br` |
| Tablumps.RenderedAppend | damnpacket/src/tablumps.rs:274-296 | rendering is token by token: two sequences side by side render as their renderings side by side |
| Tablumps.Render | damnpacket/src/tablumps.rs:274-296 | the loop appends each token's text in order: a literal entity-decoded, or kept raw where decoding fails; a tag through `as_string` |
| Tablumps.BoldExampleParse | damnpacket/src/tablumps.rs:37 | `plain &b\ttext&/b\tmore` reads as literal, bold, literal, closing bold, literal |
| Tablumps.BoldExampleRender | damnpacket/src/tablumps.rs:274-296 | and renders as `plain <b>text</b>more` |
| Codec.Buffer.SplitTo | src/codec.rs:16 | the first `n` bytes are handed back and the rest stay in order |
| Codec.Buffer.Extend | src/codec.rs:32 | the bytes go after the existing contents |
| Codec.Frame | src/codec.rs:15-16 | no frame exactly when the buffer holds no NUL; a frame is a prefix of the buffer ending in its first and only NUL |
| Codec.FrameUnique | src/codec.rs:15-16 | any NUL-terminated prefix of the buffer is the frame |
| Codec.Decode | src/codec.rs:14-24 | without a NUL, `Ok(None)` and the buffer unchanged; otherwise exactly the frame is removed and the result is its parse or an error, the frame being removed either way |
| Codec.Encode | src/codec.rs:31-34 | always succeeds, appending the packet's encoding after the existing contents |
| Codec.EncodingNulTerminated | damnpacket/src/lib.rs:61-82 | the encoding of a well-formed packet whose argument and values hold no NUL ends in its first NUL |
| Codec.EncodeThenDecode | src/codec.rs:14-34 | an encoded packet is one frame, whatever follows it, and that frame decodes to the packet |
| Codec.RoundTrip | src/codec.rs:10-35 | a packet through `encode` then `decode` comes back whole, and the bytes after it are left in the buffer |
| Events.TryFrom | src/event.rs:32-73 | unclassified exactly when the body is not a sub-packet or its name is not `msg`/`action`/`join`/`part`; a panic exactly when a recognised kind lacks the room or the sender; otherwise the kind follows the name, the room is the argument, the sender is `from` for speech and the sub-packet's argument (with empty text) for joins and parts |
| Events.ClassifySaid | src/event.rs:37-44 | the packet the server sends for a line said in a room classifies as a Message from the speaker carrying the decoded line |
| Events.Word | src/event.rs:76-80 | the first part has no space; with a space, the string is the first part, the space, then the second; without one it is `(s, "")` |
| Events.WordOfJoin | src/event.rs:76-80 | splitting a space-free word joined by a space to the rest gives both back |
| Events.Content | src/event.rs:93-95 | without a space the content is empty; otherwise it is everything after the first space |
| Events.ContentOfCommand | src/event.rs:93-95 | the content of `cmd args` is `args` |
| Events.Mk | src/event.rs:83-91 | a reply is a `send` packet to the event's room, with no attributes and a body |
| Events.ReplyBodyNulTerminated | src/event.rs:89 | the reply body ends in its first and only NUL exactly when the text holds no NUL |
| Events.MkReadsBack | src/event.rs:83-91 | a reply is a well-formed `send` packet whose body reads back as the sub-packet `msg main` carrying the text |
| Events.Respond | src/event.rs:101-104 | queues exactly the reply, due now, and hands back now |
| Events.RespondIn | src/event.rs:106-109 | queues exactly the reply, due after `d`, and hands back that instant |
| Events.RespondAt | src/event.rs:111-114 | queues exactly the reply, due at `i`, and hands back `i` |
| Events.Highlight | src/event.rs:116-122 | the highlighted text is the sender, `: `, then the text |
| Events.HighlightWord | src/event.rs:116-122 | for a space-free sender, the first word of the highlighted text is `<sender>:` and the rest is the text |
| Events.RespondHighlight | src/event.rs:116-122 | queues the reply `<sender>: text`, due now |
| Events.Cancel | src/event.rs:97-99 | removes one queued entry due at `i` and returns its packet, or removes nothing when no entry is due then |
| MessageQueue.Cmp | src/messagequeue.rs:39-58 | equal exactly when the stamps are equal, the packet playing no part; greater exactly when the stamp is earlier |
| MessageQueue.TopIsEarliest | src/messagequeue.rs:47-58 | the top of the heap under the reversed order is exactly an entry with the earliest stamp |
| MessageQueue.TopExists | src/messagequeue.rs:92 | a heap that is not empty has a top |
| MessageQueue.Delay | src/messagequeue.rs:91-103 | no timer for an empty heap; otherwise the timer reaches the soonest stamp, and is exactly the time left while that stamp is ahead |
| MessageQueue.MQ.constructor | src/messagequeue.rs:70-76 | an empty heap and no timer |
| MessageQueue.MQ.Reschedule | src/messagequeue.rs:91-103 | the heap is unchanged and the timer is armed for the soonest entry, or cleared |
| MessageQueue.MQ.ScheduleAt | src/messagequeue.rs:86-89 | adds exactly one entry and re-arms the timer, which is armed exactly while the heap is not empty |
| MessageQueue.MQ.Push | src/messagequeue.rs:78-80 | adds the packet due now |
| MessageQueue.MQ.Schedule | src/messagequeue.rs:82-84 | adds the packet due `d` from now |
| MessageQueue.MQ.Poll | src/messagequeue.rs:105-123 | with no timer or a timer still waiting, nothing changes; on a timer error, an error; when it fires, exactly one earliest entry is removed and its packet delivered, and the timer is re-armed |
| MessageQueue.MQ.Unschedule | src/event.rs:98 | removes one entry due at `i` and re-arms the timer, or changes nothing when none is due then |
| MessageQueue.DrainsWithin | src/messagequeue.rs:105-123 | successive pops deliver entries of the heap, and as many pops as entries deliver each exactly once |
| MessageQueue.DrainsSorted | src/messagequeue.rs:54-58 | successive pops deliver in non-decreasing stamp order, whatever the insertion order |
| MessageQueue.DrainExists | src/messagequeue.rs:105-123 | any heap can be drained completely one pop at a time |
| Hooks.Step | src/hooks.rs:55-61 | an addition stores its handler under its handle, replacing what was there; a removal deletes it; every other handle of either map is untouched |
| Hooks.AppliedSnoc | src/hooks.rs:53-63 | applying a batch one update longer is applying that update last |
| Hooks.AppliedAppend | src/hooks.rs:53-63 | applying two batches in turn is applying their concatenation |
| Hooks.DropAbsent | src/hooks.rs:59 | removing a handle that is not there changes nothing |
| Hooks.Matches | src/hooks.rs:24-33 | the gate opens exactly when some trigger starts the message and the command word directly follows it |
| Hooks.FiresAsPrefix | src/hooks.rs:24-33 | the gate is a plain prefix test for `!word` or `participle: word`, so `!pingpong` opens `ping` |
| Hooks.Unique.constructor | src/hooks.rs:66 | the counter starts at zero with nothing issued |
| Hooks.Unique.Next | src/hooks.rs:72-75 | each value is the old counter, larger than every value issued before it, of any handle kind |
| Hooks.Unregister | src/hooks.rs:122-124 | the update removes exactly that message handle and leaves the join map alone |
| Hooks.Register | src/hooks.rs:104-108 | a gated addition under a fresh handle, which the handler is built with |
| Hooks.RegisterJoin | src/hooks.rs:110-114 | a join addition under a fresh handle, which the handler is built with |
| Hooks.RegisterMsg | src/hooks.rs:116-120 | an ungated addition under a fresh handle, which the handler is built with |
| Hooks.HookStorage.constructor | src/hooks.rs:16-21 | both maps empty |
| Hooks.HookStorage.AddCommand | src/hooks.rs:23-43 | stores the handler behind its gate under the handle, hands back the same handle, and leaves the join map alone |
| Hooks.HookStorage.Apply | src/hooks.rs:53-63 | the registry afterwards is the updates applied one after the other, in the order of the batch |
| Handler.Run | src/handler.rs:47 | calling a handler returns the batch of its kind and draws the handles its kind draws, starting at the counter's value; only `sleep` and `wakeup` touch the sleep slot, and only `wordwar` touches the war table |
| Handler.RunEntry | src/hooks.rs:35-41 | a gated entry runs its command only when the gate opens, and otherwise returns nothing and leaves the queue, the counter, the sleep slot and the war table alone |
| Handler.GateClosed | src/hooks.rs:24-41 | a gated entry on a line that opens with neither trigger returns nothing and draws no handle |
| Handler.QuietLine | src/hooks.rs:24-41 | a line starting with neither trigger passes every gate closed: gated entries return nothing and draw no handle |
| Handler.Values | src/hooks.rs:45-51 | `values()` lists the handler of each key in the order the keys are listed |
| Handler.Plains | src/handler.rs:46-48 | join handlers are called as stored, ungated |
| Handler.KeyOrder | src/hooks.rs:45-51 | the iteration order lists every key exactly once |
| Handler.RunAll | src/handler.rs:52-54 | running the entries in turn gives their batches joined in the same order, with the handles each draws following the previous |
| Handler.PassUnique | src/handler.rs:46-54 | two records of a pass over the same entries, event and clocks, started from the same counter, hold the same batches and the same counter values |
| Handler.PassDrawsInTurn | src/hooks.rs:72-75 | every handler of a pass starts from a counter past every handle an earlier handler drew, so no two handlers of one pass draw the same handle |
| Handler.RespondJoin | src/handler.rs:46-56 | on a join every join handler runs, in one enumeration of the map, each seeing the registry as it was; their batches, joined in the order they ran, are applied once, and the counter ends where the last handler left it |
| Handler.RespondSpoken | src/handler.rs:52-56 | the same for something said or done, over the message handlers |
| Handler.RespondEvent | src/handler.rs:45-56 | a part invokes nothing and leaves the registry, the counter, the queue, the sleep slot and the war table as they were; a join is answered as `Handler.RespondJoin` states, speech as `Handler.RespondSpoken` states |
| Handler.RespondRecv | src/handler.rs:43-58 | a packet that does not classify as an event invokes nothing and leaves the registry, the counter, the queue, the sleep slot and the war table alone; an event is answered as `Handler.RespondEvent` states |
| Handler.PongPacket | src/handler.rs:25 | `pong\n\0` is the packet `pong` with no argument, attributes or body |
| Handler.RespondPing | src/handler.rs:24-26 | queues exactly one `pong`, due at once |
| Handler.LoginEncoding | src/handler.rs:29 | the handshake bytes are exactly the encoding of `login participle` with the one attribute `pk` |
| Handler.LoginPacket | src/handler.rs:29 | with a key holding no newline, the handshake parses as `login participle` carrying exactly that key |
| Handler.RespondDamnServer | src/handler.rs:28-30 | queues exactly the handshake packet, due at once |
| Handler.JoinPacket | src/handler.rs:37 | `join chat:devintesting\n\0` is the packet `join` with argument `chat:devintesting` |
| Handler.RespondLogin | src/handler.rs:32-41 | with `e=ok`, queues exactly the join packet; with anything else, queues nothing |
| Handler.Reply | src/handler.rs:24-41 | `ping` queues one `pong`, due at once; `dAmnServer` queues the handshake, due at once; `login` with `e=ok` queues the join of `chat:devintesting`, and with anything else queues nothing |
| Handler.Handle | src/handler.rs:13-22 | a packet whose name is not in `ACTIONS` invokes nothing and changes nothing; `ping`, `dAmnServer` and `login` are answered as `Handler.Reply` states and leave the registry, the counter, the sleep slot and the war table alone; `recv` is answered as `Handler.RespondRecv` states |
| Commands.DefaultCmds | src/commands/mod.rs:21-28 | four updates drawing four handles in a row, as `DefaultBatch` lists them |
| Commands.DefaultBatchShape | src/commands/mod.rs:13-28 | the updates are four gated additions, one per name of `CMD_NAMES` in order, each under its own handle and building its word's handler, which ignores the handle |
| Commands.DefaultInstalled | src/commands/mod.rs:17 | on a registry whose handles are older, the table adds four new gated commands, one per name, and disturbs nothing else |
| CommandList.DefaultListText | src/commands/commands.rs:5 | with the default table the reply is `Commands are: about, commands, echo, ping` |
| CommandList.ListCommands | src/commands/commands.rs:3-8 | replies to the sender with the names captured at construction joined by `, `, and returns no updates |
| Echo.EchoAsWritten | src/commands/echo.rs:3-10 | no reply exactly when the sender is the bot or the message is at most 6 bytes |
| Echo.EchoAsWrittenBang | src/commands/echo.rs:8 | under `!`, `!echo text` echoes the text |
| Echo.EchoAsWrittenAddressed | src/commands/echo.rs:8 | under `participle: `, `participle: echo text` is answered with `iple: echo text` |
| Echo.EchoReply | src/commands/echo.rs:4-8 | no reply exactly when the sender is the bot or nothing follows the command |
| Echo.EchoReplyOfCommand | src/commands/echo.rs:8 | under either trigger, `echo text` echoes the text |
| Echo.EchoReplyAgrees | src/commands/echo.rs:4-8 | under `!` the correction changes nothing |
| Echo.Echo | src/commands/echo.rs:3-10 | replies with the text after the command, or stays silent, and returns no updates |
| Ping.ElapsedMs | src/commands/ping.rs:9-11 | sub-second nanoseconds over a million plus whole seconds times a thousand is the duration in whole milliseconds, rounded down |
| Ping.PingReply | src/commands/ping.rs:7-17 | on exactly the ring, answers with the elapsed milliseconds and removes itself; on anything else does nothing |
| Ping.Ping | src/commands/ping.rs:4-18 | rings at once and adds one ungated hook under a fresh handle, built with the instant of the ring |
| Ping.PingOneShot | src/commands/ping.rs:7-17 | the hook stays for any other message and, once answered, leaves the registry as it was before the ping |
| FooBar.Foo | src/commands/foobar.rs:3-11 | replies once and returns the removal of itself, then `bar` under a fresh handle |
| FooBar.Bar | src/commands/foobar.rs:13-21 | replies once and returns the removal of itself, then `foo` under a fresh handle |
| FooBar.Handover | src/commands/foobar.rs:6-9 | the firing handle is gone and the new command sits under a handle that differs from it and was not in use |
| FooBar.Toggles | src/commands/foobar.rs:6-19 | either batch removes the firing handle and adds the other command under a fresh, different handle |
| FooBar.HandoverKeeps | src/commands/foobar.rs:7-8 | every other handle is left as it was |
| FooBar.FooThenBar | src/commands/foobar.rs:3-21 | `!foo` then `!bar` removes both firing handles and brings `foo` back under the handle `bar` drew |
| Sleep.Slot.constructor | src/commands/sleep.rs:3 | no wake-up pending |
| Sleep.ParseU64 | src/commands/sleep.rs:26 | a number read is below 2^64 |
| Sleep.ParseU64Decimal | src/commands/sleep.rs:26 | every 64-bit number printed in decimal, with or without `+`, reads back as itself |
| Sleep.ParseU64Rejects | src/commands/sleep.rs:26 | a byte other than a digit, except a leading `+`, makes the parse fail |
| Sleep.ArgumentAsWritten | src/commands/sleep.rs:26 | the source reads from byte 7: the argument is the message without its first 7 bytes, which under `!` is exactly the text after `!sleep ` |
| Sleep.SleepAsWrittenAddressed | src/commands/sleep.rs:26 | under `participle: `, the fixed offset reads `ple: sleep n`, which is not a number, where the intended reading finds `n` |
| Sleep.ArgumentAgrees | src/commands/sleep.rs:23-26 | under `!` the corrected guard and reading agree with the source's |
| Sleep.Sleep | src/commands/sleep.rs:22-39 | a message ending before the number is ignored; a non-number is answered and keeps the slot; a number `i` is answered, the wake-up is queued `i` seconds later and its instant stored, overwriting any pending one; no updates |
| Sleep.Wakeup | src/commands/sleep.rs:5-20 | with a wake-up pending, the slot is cleared, the queued wake-up due then is cancelled if there is one, and the bot says it is awake; otherwise it says it was not sleeping; no updates |
| WordWar.Dec | src/commands/wordwar.rs:29 | a number read fits in 32 bits; incomplete exactly on empty input |
| WordWar.DecOf | src/commands/wordwar.rs:29 | a 32-bit number printed in decimal reads back, up to the first non-digit |
| WordWar.ParseWw | src/commands/wordwar.rs:31-37 | both numbers read fit in 32 bits |
| WordWar.ParseWwOf | src/commands/wordwar.rs:31-37 | `at :m for d` reads back as `(m, d)`, whatever follows |
| WordWar.WarParse | src/commands/wordwar.rs:40-52 | every refusal is one of the three explanations |
| WordWar.StartOf | src/commands/wordwar.rs:45-50 | the start has the requested minute, second 0 and now's nanoseconds; it is in this hour exactly when the minute is still ahead, otherwise in the next |
| WordWar.StartAhead | src/commands/wordwar.rs:45-50 | the start is the next time with that minute and second 0, strictly after now and at most an hour away |
| WordWar.WarParseMeaning | src/commands/wordwar.rs:40-52 | unparsable means `I don't understand.`; more than 59 minutes means `Too many minutes.`; a minute above 59 means `math error`; otherwise the start is within the next hour and the end the requested minutes later |
| WordWar.Until | src/commands/wordwar.rs:12-19 | none exactly when the time has passed, else the gap from now to it |
| WordWar.Launch | src/commands/wordwar.rs:58-84 | draws the war's handle and then the `in` handle, queues START and STOP at their instants and the announcement now, and records the war |
| WordWar.Answer | src/commands/wordwar.rs:55-88 | a refused request is answered with its reason and changes nothing else; an accepted one is launched |
| WordWar.WordWar | src/commands/wordwar.rs:55-89 | as `Answer` on the parsed request; with one clock reading for the whole command both instants lie ahead, so neither `unwrap` of `until` can fail at that reading |
| WordWar.WarIn | src/commands/wordwar.rs:75-83 | before the start, tells the sender they joined and returns nothing; after it, removes itself silently |
| WordWar.InExpires | src/commands/wordwar.rs:75-83 | the `in` command stays until the war starts and, used after that, leaves the registry as it found it |
| WordWar.WarTable.constructor | src/commands/wordwar.rs:27 | no wars |
| ByteStrings.Join | src/commands/commands.rs:5 | joining no names gives nothing; otherwise the text starts with the first name |
| ByteStrings.JoinSnoc | src/commands/commands.rs:5 | joining one more name appends the separator and that name |
| ByteStrings.Position | src/codec.rs:15 | the first occurrence of the byte, none exactly when it is absent |
| ByteStrings.Decimal | src/commands/sleep.rs:28 | `{}` of a number is a non-empty run of digits without a leading zero |
| ByteStrings.DecimalRoundTrip | src/commands/wordwar.rs:29 | the digits of a number read back as the number |

## Left out

- nom's streaming outcomes: the model keeps the difference between an error and running out of input, since `many0!`, `opt!` and `alt!` treat the two differently. `to_result` on an incomplete parse is modelled as an error. Reading `i1[0]` on an exhausted input, a panic in the source, is folded into incomplete. Both abort the parse.
- UTF-8: the `expect`s on `String::from_utf8` in `attr`, `from_utf8(...).unwrap()` in `respond_highlight`, and char-boundary panics when slicing a `String` are not modelled. Text is bytes throughout.
- The crate-level `string!` macro is modelled as the identity on bytes.
- `MessageBody::to_string` is not part of this model. It is the parameter `text` of `Events.TryFrom`.
- `Message::pretty` (ANSI terminal output) is not modelled.
- The text of `about` comes from the compiler version and the build environment. It is a parameter.
- `htmlescape::decode_html` is a parameter of `Tablumps.Render` that may fail. The `warn!` it logs is not modelled.
- Logging (`info!`, `error!`, `warn!`) is not modelled.
- Clocks: each operation is passed one reading of `Instant::now()` and `Local::now()`, which stands for all of its reads. Subtracting a later `Instant` from an earlier one stops at zero (`Ping.Gap`). Time zones and daylight-saving changes are not modelled: local time is hours since the epoch plus minute, second and nanosecond.
- `WordWar.WordWar`: `War::parse` (src/commands/wordwar.rs:45) and `until` (src/commands/wordwar.rs:13) each read the clock. With the minute one before the requested one and the second at 59, the start is one second ahead, and a stall of more than a second between the reads makes `until` return none, so the `unwrap` at src/commands/wordwar.rs:61 panics. With one reading per command the model cannot show this panic.
- Overflow: `Instant` overflow and the `usize` wrap-around of the handle counter are not modelled.
- Timer and runtime machinery: tokio's `Timeout`, `task::park().unpark()`, `Rc<RefCell<…>>` and the `Stream` impl are not modelled. The timer is the delay it was armed with, and whether it has fired is a parameter of `MQ.Poll`.
- `unschedule`, which src/event.rs:98 calls, does not appear in src/messagequeue.rs. `MessageQueue.MQ.Unschedule` is modelled from its use: remove one entry due at the instant, then re-arm.
- Return values: `respond*` in src/event.rs return the `Instant` that src/messagequeue.rs does not return. The model hands back the instant the packet is due.
- `MessageQueue.MQ.Unschedule`: entries are told apart by stamp only, so which of several entries due at the same instant is removed is not determined.
- Concurrency: `AtomicUsize`, `Mutex`, `state::Storage` and `Send` are not modelled. The counter, the sleep slot and the war table are plain objects.
- SQLite: `Event::load`, `Event::execute` and src/commands/welcome.rs are not modelled.
- src/main.rs (connection, reconnect loop, reactor) and the stale src/commands.rs are not part of this model.
- `Codec.RoundTrip` requires that the argument and attribute values hold no NUL. A NUL there would end the frame early.
- `Handler.Run`: states the updates and the counter for every handler kind, and that only `sleep`/`wakeup` change the sleep slot and only `wordwar` the war table. The packets each handler queues and the new slot or table are stated by the per-command methods it calls (`Echo.Echo`, `Sleep.Sleep`, `WordWar.WordWar`, …), not repeated in its contract.
- `Handler.Handle`: for `recv` it states the registry and the invoked entries as `Handler.RespondRecv` does; the packets queued during the pass are left to the per-command contracts.
- `Handler.RespondDamnServer`: requires that the build-time key `PK` holds no newline, the condition under which the handshake parses back with the whole key. With a newline in the key the source does not panic: the attribute after the newline fails at its `=`, the body parser skips one byte, and the handshake sent carries the key cut at the newline. The model excludes this build-time case.
- `Handler.RespondRecv`: a recognised event missing its room or sender panics in the source (an `expect`). This is a precondition here.
- `Handler.RunEntry`: the gate reads the message of the event. The `&ev.message[t.len()..]` char-boundary panic is not modelled.
- `Sleep.Sleep` and `Echo.Echo` implement the corrected readings listed under Findings. Their as-written counterparts are `Sleep.ArgumentAsWritten` and `Echo.EchoAsWritten`.

## Findings

| source | as written | input that shows it | evidently intended | confidence | as-written member | corrected member |
|---|---|---|---|---|---|---|
| src/commands/echo.rs:4-8 | the echoed text starts at byte 6, the length of `!echo `, whichever trigger opened the message | `participle: echo hi` from another user is answered with `iple: echo hi` | the text after `echo `, under either trigger | not executed | Echo.EchoAsWrittenAddressed | Echo.EchoReplyOfCommand |
| src/commands/sleep.rs:23-26 | the number is read from byte 7, the length of `!sleep `, whichever trigger opened the message | `participle: sleep 5` is read from `ple: sleep 5` and answered with `That doesn't look like a number.` | the number after `sleep `, under either trigger | not executed | Sleep.SleepAsWrittenAddressed | Sleep.Sleep |
