/**
 * The dAmn packet grammar of damnpacket/src/lib.rs: a name, an optional
 * argument, `key=value` lines, then either a NUL or a newline followed by a
 * NUL-terminated body. A body can itself be read as a sub-packet.
 *
 * Concatenations are written grouped to the right (`a + (b + c)`), the way a
 * parser consumes its input; `Assoc` regroups them where a proof needs it.
 */
module Packet {
  import opened Wrappers
  import opened ByteStrings
  import opened Nom

  /** The raw bytes of a body, including its terminating NUL. */
  datatype MessageBody = MessageBody(bytes: Bytes)

  datatype Message = Message(
    name: Bytes,
    argument: Option<Bytes>,
    attrs: map<Bytes, Bytes>,
    body: Option<MessageBody>)

  /** A parsed body: either attribute lines only (no name, no argument) or a full packet. */
  datatype SubMessage = SubMessage(
    name: Option<Bytes>,
    argument: Option<Bytes>,
    attrs: map<Bytes, Bytes>,
    body: Option<MessageBody>)

  type Pair = (Bytes, Bytes)

  predicate IsKey(k: Bytes) { |k| > 0 && All(k, IsAlnum) }
  predicate IsValue(v: Bytes) { NL !in v }
  predicate IsName(n: Bytes) { |n| > 0 && All(n, IsAlpha) }

  predicate WellFormedAttrs(attrs: map<Bytes, Bytes>) {
    forall k | k in attrs :: IsKey(k) && IsValue(attrs[k])
  }

  /** What the parser can produce. */
  predicate WellFormed(m: Message) {
    && IsName(m.name)
    && (m.argument.Some? ==> NL !in m.argument.value)
    && WellFormedAttrs(m.attrs)
    && (m.body.Some? ==> NulTerminated(m.body.value.bytes))
  }

  /**
   * What the sub-packet parser can produce: a named sub-packet is a
   * well-formed packet; a name-less one has no argument and at least one
   * attribute, all well formed, and a NUL-terminated body if any.
   */
  predicate WellFormedSub(s: SubMessage) {
    && (s.name.Some? ==> WellFormed(Message(s.name.value, s.argument, s.attrs, s.body)))
    && (s.name.None? ==> && s.argument.None? && |s.attrs| > 0 && WellFormedAttrs(s.attrs)
                         && (s.body.Some? ==> NulTerminated(s.body.value.bytes)))
  }

  /** The line `key=value\n` of one attribute. */
  function Line(kv: Pair): Bytes { kv.0 + ("=" + (kv.1 + "\n")) }

  lemma LineThen(kv: Pair, rest: Bytes)
    ensures Line(kv) + rest == kv.0 + ("=" + (kv.1 + ("\n" + rest)))
  {
    Assoc(kv.0, "=" + (kv.1 + "\n"), rest);
    Assoc("=", kv.1 + "\n", rest);
    Assoc(kv.1, "\n", rest);
  }

  function Lines(ps: seq<Pair>): Bytes {
    if ps == [] then [] else Line(ps[0]) + Lines(ps[1..])
  }

  // ---------------------------------------------------------------- parsing

  /** `attr`: an alphanumeric key, `=`, then the value up to the next newline, which is consumed. */
  function Attr(input: Bytes): (r: IResult<Pair>)
    ensures r.Done? ==> IsKey(r.value.0) && IsValue(r.value.1) && input == Line(r.value) + r.rest
    ensures input != [] && !IsAlnum(input[0]) ==> r.Error?
  {
    var key :- TakeWhile1(input, IsAlnum);
    var eq :- Tag(key.rest, "=");
    var val :- TakeUntil(eq.rest, NL);
    var nl :- Tag(val.rest, "\n");
    LineThen((key.value, val.value), nl.rest);
    Done(nl.rest, (key.value, val.value))
  }

  /** `many0!(attr)`: attribute lines until one fails to start; running out of input aborts. */
  function Attrs(input: Bytes): (r: IResult<seq<Pair>>)
    ensures !r.Error?
    ensures r.Done? ==> input == Lines(r.value) + r.rest
    ensures r.Done? ==> forall i | 0 <= i < |r.value| :: IsKey(r.value[i].0) && IsValue(r.value[i].1)
    decreases |input|
  {
    if input == [] then Done(input, [])
    else match Attr(input)
      case Error => Done(input, [])
      case Incomplete => Incomplete
      case Done(rest, kv) =>
        var more :- Attrs(rest);
        var ps := [kv] + more.value;
        assert ps[0] == kv && ps[1..] == more.value;
        Assoc(Line(kv), Lines(more.value), more.rest);
        Done(more.rest, ps)
  }

  /** `attrs.into_iter().collect()` into a map: a later pair for the same key replaces an earlier one. */
  function Collect(ps: seq<Pair>): (r: map<Bytes, Bytes>)
    ensures |ps| > 0 ==> ps[|ps| - 1].0 in r && r[ps[|ps| - 1].0] == ps[|ps| - 1].1
    decreases |ps|
  {
    if ps == [] then map[] else Collect(ps[..|ps| - 1])[ps[|ps| - 1].0 := ps[|ps| - 1].1]
  }

  /** Every key a pair lists is in the collected map. */
  lemma {:induction false} CollectHasKeys(ps: seq<Pair>)
    ensures forall i | 0 <= i < |ps| :: ps[i].0 in Collect(ps)
    decreases |ps|
  {
    if ps != [] {
      var init := ps[..|ps| - 1];
      CollectHasKeys(init);
      assert forall i | 0 <= i < |ps| - 1 :: ps[i] == init[i];
    }
  }

  /** Every key of the collected map comes from the last pair that lists it, with that pair's value. */
  lemma {:induction false} CollectFromLast(ps: seq<Pair>)
    ensures forall k | k in Collect(ps) ::
              exists i | 0 <= i < |ps| :: ps[i] == (k, Collect(ps)[k]) && forall j | i < j < |ps| :: ps[j].0 != k
    decreases |ps|
  {
    if ps != [] {
      var n := |ps|;
      var init := ps[..n - 1];
      CollectFromLast(init);
      forall k | k in Collect(ps)
        ensures exists i | 0 <= i < |ps| :: ps[i] == (k, Collect(ps)[k]) && forall j | i < j < |ps| :: ps[j].0 != k
      {
        if k == ps[n - 1].0 {
          assert ps[n - 1] == (k, Collect(ps)[k]);
        } else {
          var i :| 0 <= i < |init| && init[i] == (k, Collect(init)[k]) && forall j | i < j < |init| :: init[j].0 != k;
          assert ps[i] == init[i];
          assert forall j | i < j < |ps| :: ps[j].0 != k by {
            forall j | i < j < |ps| ensures ps[j].0 != k {
              if j < n - 1 { assert ps[j] == init[j]; }
            }
          }
        }
      }
    }
  }

  /** Every entry of the collected map comes from a well-formed pair, so the map is well formed. */
  lemma {:induction false} CollectWellFormed(ps: seq<Pair>)
    requires forall i | 0 <= i < |ps| :: IsKey(ps[i].0) && IsValue(ps[i].1)
    ensures WellFormedAttrs(Collect(ps))
    decreases |ps|
  {
    if ps != [] {
      CollectWellFormed(ps[..|ps| - 1]);
    }
  }

  /** `pbody`: one byte; a newline starts a body that runs up to and including the next NUL, any other byte means no body. */
  function PBody(input: Bytes): (r: IResult<Option<MessageBody>>)
    ensures !r.Error?
    ensures r.Done? && r.value.Some? ==> NulTerminated(r.value.value.bytes) && input == [NL] + (r.value.value.bytes + r.rest)
    ensures r.Done? && r.value.None? ==> input != [] && input[0] != NL && input == [input[0]] + r.rest
  {
    match BeU8(input)
    case Incomplete => Incomplete
    case Done(i1, next) =>
      if next == NL then
        var Done(i2, text) := TakeTill(i1, NUL);
        // `take_till!` stopped at a NUL or at the end, so `tag!` can only run out of input
        match Tag(i2, "\0")
        case Done(i3, nul) =>
          var bytes := text + nul;
          assert bytes[..|bytes| - 1] == text;
          Assoc(text, nul, i3);
          Done(i3, Some(MessageBody(bytes)))
        case _ => Incomplete
      else Done(i1, None)
  }

  /** `parse_message`: the name, the optional argument, the attributes and the body. */
  function ParseMessage(input: Bytes): (r: IResult<Message>)
    ensures r.Done? ==> WellFormed(r.value) && |r.rest| < |input|
  {
    var nm :- TakeWhile1(input, IsAlpha);
    // the source reads `i1[0]` here; on an exhausted input that aborts the parse
    if nm.rest == [] then Incomplete
    else
      var arg :- if nm.rest[0] == SP then
                   (var a :- TakeUntil1(nm.rest, NL); Done(a.rest, Some(a.value[1..])))
                 else Done(nm.rest, None);
      var nl :- Tag(arg.rest, "\n");
      var attrs :- Attrs(nl.rest);
      var body :- PBody(attrs.rest);
      CollectWellFormed(attrs.value);
      Done(body.rest, Message(nm.value, arg.value, Collect(attrs.value), body.value))
  }

  /** `parse_submessage`: attribute lines first (then a body), otherwise a full packet. */
  function ParseSubmessage(input: Bytes): (r: IResult<SubMessage>)
    ensures r.Done? && r.value.name.None? ==> r.value.argument.None? && |r.value.attrs| > 0
  {
    match Attr(input)
    case Incomplete => Incomplete
    case Done(i1, pair) =>
      var more :- Attrs(i1);
      var body :- PBody(more.rest);
      var ps := [pair] + more.value;
      var attrs := Collect(ps);
      assert ps[|ps| - 1].0 in attrs;
      Done(body.rest, SubMessage(None, None, attrs, body.value))
    case Error =>
      var msg :- ParseMessage(input);
      Done(msg.rest, SubMessage(Some(msg.value.name), msg.value.argument, msg.value.attrs, msg.value.body))
  }

  /** `parse`: a packet from the front of the input; whatever follows it is ignored. */
  function Parse(bs: Bytes): (r: Result<Message, ()>)
    ensures r.Ok? ==> WellFormed(r.value)
  {
    match ParseMessage(bs)
    case Done(_, m) => Ok(m)
    case _ => Err(())
  }

  /** Collecting a first well-formed pair and then more well-formed pairs gives well-formed attributes. */
  lemma CollectWellFormedCons(pair: Pair, more: seq<Pair>)
    requires IsKey(pair.0) && IsValue(pair.1)
    requires forall i | 0 <= i < |more| :: IsKey(more[i].0) && IsValue(more[i].1)
    ensures WellFormedAttrs(Collect([pair] + more))
  {
    var ps := [pair] + more;
    forall i | 0 <= i < |ps|
      ensures IsKey(ps[i].0) && IsValue(ps[i].1)
    {
      if i > 0 {
        assert ps[i] == more[i - 1];
      }
    }
    CollectWellFormed(ps);
  }

  /** The sub-packet parser produces only well-formed sub-packets. */
  lemma ParseSubmessageWellFormed(input: Bytes)
    ensures ParseSubmessage(input).Done? ==> WellFormedSub(ParseSubmessage(input).value)
  {
    match Attr(input) {
      case Done(i1, pair) =>
        match Attrs(i1) {
          case Done(i2, more) =>
            CollectWellFormedCons(pair, more);
          case _ =>
        }
      case _ =>
    }
  }

  /** `MessageBody::submessage` */
  function Submessage(body: MessageBody): (r: Result<SubMessage, ()>)
    ensures r.Ok? ==> WellFormedSub(r.value)
  {
    ParseSubmessageWellFormed(body.bytes);
    match ParseSubmessage(body.bytes)
    case Done(_, s) => Ok(s)
    case _ => Err(())
  }

  /** `Message::get_attr` */
  function GetAttr(m: Message, key: Bytes): (r: Option<Bytes>)
    ensures r.Some? <==> key in m.attrs
    ensures r.Some? ==> r.value == m.attrs[key]
  {
    if key in m.attrs then Some(m.attrs[key]) else None
  }

  /** `Message::has_attr` */
  function HasAttr(m: Message, key: Bytes, value: Bytes): (b: bool)
    ensures b <==> key in m.attrs && m.attrs[key] == value
  {
    GetAttr(m, key) == Some(value)
  }

  // --------------------------------------------------------------- encoding

  /** `order` lists every key of the map exactly once: one possible iteration order of the map. */
  predicate IsEnumeration(order: seq<Bytes>, keys: set<Bytes>) {
    && (forall i, j | 0 <= i < j < |order| :: order[i] != order[j])
    && (forall k | k in order :: k in keys)
    && (forall k | k in keys :: k in order)
  }

  function AttrLines(attrs: map<Bytes, Bytes>, order: seq<Bytes>): Bytes
    requires forall k | k in order :: k in attrs
  {
    if order == [] then [] else Line((order[0], attrs[order[0]])) + AttrLines(attrs, order[1..])
  }

  /** A space and the argument, when there is one. */
  function ArgPart(argument: Option<Bytes>): Bytes {
    match argument
    case Some(a) => [SP] + a
    case None => []
  }

  /** A newline and the raw body, or a single NUL when there is no body. */
  function Trailer(body: Option<MessageBody>): Bytes {
    match body
    case Some(b) => [NL] + b.bytes
    case None => [NUL]
  }

  /** The bytes `as_bytes` writes when the attribute map iterates in the given order. */
  function Encoding(m: Message, order: seq<Bytes>): Bytes
    requires forall k | k in order :: k in m.attrs
  {
    m.name + (ArgPart(m.argument) + ([NL] + (AttrLines(m.attrs, order) + Trailer(m.body))))
  }

  lemma {:induction false} AttrLinesAppend(attrs: map<Bytes, Bytes>, order: seq<Bytes>, k: Bytes)
    requires forall x | x in order :: x in attrs
    requires k in attrs
    ensures AttrLines(attrs, order + [k]) == AttrLines(attrs, order) + Line((k, attrs[k]))
  {
    if order != [] {
      assert (order + [k])[1..] == order[1..] + [k];
      AttrLinesAppend(attrs, order[1..], k);
      Assoc(Line((order[0], attrs[order[0]])), AttrLines(attrs, order[1..]), Line((k, attrs[k])));
    }
  }

  /** `Message::as_bytes`: the header, one line per attribute in the map's iteration order, then the trailer. */
  method AsBytes(m: Message) returns (bytes: Bytes, ghost order: seq<Bytes>)
    ensures IsEnumeration(order, m.attrs.Keys)
    ensures bytes == Encoding(m, order)
    ensures WellFormed(m) ==> Parse(bytes) == Ok(m)
  {
    bytes := [];
    bytes := bytes + m.name;
    if m.argument.Some? {
      bytes := bytes + [SP];
      bytes := bytes + m.argument.value;
    }
    assert bytes == m.name + ArgPart(m.argument);
    bytes := bytes + [NL];
    var head := bytes;
    var left := m.attrs.Keys;
    order := [];
    while left != {}
      invariant left <= m.attrs.Keys
      invariant forall i, j | 0 <= i < j < |order| :: order[i] != order[j]
      invariant forall k | k in order :: k in m.attrs && k !in left
      invariant forall k | k in m.attrs :: k in order || k in left
      invariant bytes == head + AttrLines(m.attrs, order)
      decreases left
    {
      var k: Bytes :| k in left;
      ghost var before := bytes;
      bytes := bytes + k;
      bytes := bytes + "=";
      bytes := bytes + m.attrs[k];
      bytes := bytes + [NL];
      assert bytes == before + Line((k, m.attrs[k])) by {
        LineThen((k, m.attrs[k]), []);
        assert before + k + "=" + m.attrs[k] + [NL] == before + (k + ("=" + (m.attrs[k] + [NL])));
      }
      AttrLinesAppend(m.attrs, order, k);
      Assoc(head, AttrLines(m.attrs, order), Line((k, m.attrs[k])));
      order := order + [k];
      left := left - {k};
    }
    bytes := bytes + Trailer(m.body);
    assert bytes == Encoding(m, order) by {
      Assoc(head, AttrLines(m.attrs, order), Trailer(m.body));
      Assoc(m.name + ArgPart(m.argument), [NL], AttrLines(m.attrs, order) + Trailer(m.body));
      Assoc(m.name, ArgPart(m.argument), [NL] + (AttrLines(m.attrs, order) + Trailer(m.body)));
    }
    if WellFormed(m) {
      ParseIgnoresTrailing(m, order, []);
      assert bytes + [] == bytes;
    }
  }

  // ------------------------------------------------------------ round trip

  /** `alpha`/`alphanumeric` stop exactly where the run of qualifying bytes ends. */
  lemma AttrOfLine(kv: Pair, rest: Bytes)
    requires IsKey(kv.0) && IsValue(kv.1)
    ensures Attr(Line(kv) + rest) == Done(rest, kv)
  {
    var (k, v) := kv;
    var tail := "=" + (v + ("\n" + rest));
    LineThen(kv, rest);
    TakeWhile1Split(k, tail, IsAlnum);
    assert Tag(tail, "=") == Done(v + ("\n" + rest), "=");
    TakeUntilSplit(v, NL, rest);
    assert Tag([NL] + rest, "\n") == Done(rest, "\n");
  }

  function Pairs(attrs: map<Bytes, Bytes>, order: seq<Bytes>): (ps: seq<Pair>)
    requires forall k | k in order :: k in attrs
    ensures |ps| == |order| && forall i | 0 <= i < |order| :: ps[i] == (order[i], attrs[order[i]])
  {
    if order == [] then [] else [(order[0], attrs[order[0]])] + Pairs(attrs, order[1..])
  }

  /** The attribute lines of an encoding are read back as the same pairs, stopping at the trailer. */
  lemma {:induction false} AttrsOfLines(attrs: map<Bytes, Bytes>, order: seq<Bytes>, z: Bytes)
    requires WellFormedAttrs(attrs) && forall k | k in order :: k in attrs
    requires z != [] && !IsAlnum(z[0])
    ensures Attrs(AttrLines(attrs, order) + z) == Done(z, Pairs(attrs, order))
    decreases |order|
  {
    if order == [] {
      assert Attr(z).Error?;
    } else {
      var kv := (order[0], attrs[order[0]]);
      var tail := AttrLines(attrs, order[1..]) + z;
      Assoc(Line(kv), AttrLines(attrs, order[1..]), z);
      AttrOfLine(kv, tail);
      AttrsOfLines(attrs, order[1..], z);
      assert [kv] + Pairs(attrs, order[1..]) == Pairs(attrs, order);
    }
  }

  /** Collecting the pairs of a list of keys gives the map restricted to those keys. */
  lemma {:induction false} CollectPairs(attrs: map<Bytes, Bytes>, order: seq<Bytes>)
    requires forall k | k in order :: k in attrs
    ensures forall k :: k in Collect(Pairs(attrs, order)) <==> k in order
    ensures forall k | k in order :: Collect(Pairs(attrs, order))[k] == attrs[k]
    decreases |order|
  {
    if order != [] {
      var n := |order|;
      var init, last := order[..n - 1], order[n - 1];
      var ps := Pairs(attrs, order);
      assert ps[..n - 1] == Pairs(attrs, init);
      CollectPairs(attrs, init);
      LastMember(order, init, last);
    }
  }

  /** A key is in a non-empty list exactly when it is in the list without its last key, or is that key. */
  lemma LastMember(order: seq<Bytes>, init: seq<Bytes>, last: Bytes)
    requires order != [] && init == order[..|order| - 1] && last == order[|order| - 1]
    ensures forall k :: k in order <==> k in init || k == last
  {
    assert order == init + [last];
  }

  /** Collecting the pairs of an enumeration gives the map back. */
  lemma CollectEnumeration(attrs: map<Bytes, Bytes>, order: seq<Bytes>)
    requires IsEnumeration(order, attrs.Keys)
    ensures Collect(Pairs(attrs, order)) == attrs
  {
    var c := Collect(Pairs(attrs, order));
    CollectPairs(attrs, order);
    SameMap(c, attrs);
  }

  /** Two maps with the same keys and the same value at each key are equal. */
  lemma SameMap(c: map<Bytes, Bytes>, m: map<Bytes, Bytes>)
    requires forall k :: k in c <==> k in m
    requires forall k | k in m :: c[k] == m[k]
    ensures c == m
  {
    assert c.Keys == m.Keys;
  }

  lemma PBodyOfTrailer(body: Option<MessageBody>, rest: Bytes)
    requires body.Some? ==> NulTerminated(body.value.bytes)
    ensures PBody(Trailer(body) + rest) == Done(rest, body)
  {
    match body
    case None =>
    case Some(b) =>
      var p := b.bytes[..|b.bytes| - 1];
      assert b.bytes == p + [NUL];
      Assoc([NL], b.bytes, rest);
      Assoc(p, [NUL], rest);
      PositionAfter(p, NUL, rest);
      var s := p + ([NUL] + rest);
      assert s[..|p|] == p && s[|p|..] == [NUL] + rest;
      assert TakeTill(s, NUL) == Done([NUL] + rest, p);
      assert Tag([NUL] + rest, "\0") == Done(rest, "\0");
  }

  /** After the name, the parser finds the argument and then the newline that ends the header. */
  lemma ArgumentOfHeader(m: Message, y: Bytes)
    requires WellFormed(m)
    ensures var x := ArgPart(m.argument) + ([NL] + y);
            x != [] &&
            (if x[0] == SP then
               TakeUntil1(x, NL) == Done([NL] + y, ArgPart(m.argument)) && ArgPart(m.argument)[1..] == m.argument.value
             else m.argument.None? && x == [NL] + y)
  {
    match m.argument
    case None =>
    case Some(a) =>
      var x := ([SP] + a) + ([NL] + y);
      Assoc([SP], a, [NL] + y);
      PositionAfter([SP] + a, NL, y);
      assert x[..1 + |a|] == [SP] + a && x[1 + |a|..] == [NL] + y;
  }

  /** Parsing the encoding of a well-formed packet, in any attribute order, gives the packet back and leaves what followed it. */
  lemma {:induction false} ParseEncoding(m: Message, order: seq<Bytes>, rest: Bytes)
    requires WellFormed(m) && IsEnumeration(order, m.attrs.Keys)
    ensures ParseMessage(Encoding(m, order) + rest) == Done(rest, m)
  {
    var z := Trailer(m.body) + rest;
    var y := AttrLines(m.attrs, order) + z;
    var x := ArgPart(m.argument) + ([NL] + y);
    assert Encoding(m, order) + rest == m.name + x by {
      Assoc(AttrLines(m.attrs, order), Trailer(m.body), rest);
      Assoc([NL], AttrLines(m.attrs, order) + Trailer(m.body), rest);
      Assoc(ArgPart(m.argument), [NL] + (AttrLines(m.attrs, order) + Trailer(m.body)), rest);
      Assoc(m.name, ArgPart(m.argument) + ([NL] + (AttrLines(m.attrs, order) + Trailer(m.body))), rest);
    }
    ArgumentOfHeader(m, y);
    TakeWhile1Split(m.name, x, IsAlpha);
    assert Tag([NL] + y, "\n") == Done(y, "\n");
    AttrsOfLines(m.attrs, order, z);
    PBodyOfTrailer(m.body, rest);
    CollectEnumeration(m.attrs, order);
  }

  /** parse, then as_bytes, then parse gives the first result again, whatever order the attributes are written in. */
  lemma ParseRoundTrip(bs: Bytes, order: seq<Bytes>)
    requires Parse(bs).Ok?
    requires IsEnumeration(order, Parse(bs).value.attrs.Keys)
    ensures Parse(Encoding(Parse(bs).value, order)) == Parse(bs)
  {
    var m := Parse(bs).value;
    ParseEncoding(m, order, []);
    assert Encoding(m, order) + [] == Encoding(m, order);
  }

  /** Bytes after a complete packet are not looked at. */
  lemma ParseIgnoresTrailing(m: Message, order: seq<Bytes>, rest: Bytes)
    requires WellFormed(m) && IsEnumeration(order, m.attrs.Keys)
    ensures Parse(Encoding(m, order) + rest) == Ok(m)
  {
    ParseEncoding(m, order, rest);
  }

  /** A body holding a full packet is read back with its name. */
  lemma SubmessageOfEncoding(m: Message, order: seq<Bytes>, rest: Bytes)
    requires WellFormed(m) && IsEnumeration(order, m.attrs.Keys)
    ensures ParseSubmessage(Encoding(m, order) + rest)
            == Done(rest, SubMessage(Some(m.name), m.argument, m.attrs, m.body))
  {
    var y := AttrLines(m.attrs, order) + Trailer(m.body);
    var x := ArgPart(m.argument) + ([NL] + y);
    Assoc(m.name, x, rest);
    ArgumentOfHeader(m, y);
    assert x[0] == SP || x[0] == NL;
    assert x + rest == [x[0]] + (x + rest)[1..];
    assert All(m.name, IsAlnum);
    TakeWhile1Split(m.name, x + rest, IsAlnum);
    assert Attr(Encoding(m, order) + rest).Error?;
    ParseEncoding(m, order, rest);
  }

  /** A body made of attribute lines only is read back as a name-less sub-packet. */
  lemma SubmessageOfAttrs(attrs: map<Bytes, Bytes>, order: seq<Bytes>, body: Option<MessageBody>, rest: Bytes)
    requires WellFormedAttrs(attrs) && IsEnumeration(order, attrs.Keys) && |order| > 0
    requires body.Some? ==> NulTerminated(body.value.bytes)
    ensures ParseSubmessage(AttrLines(attrs, order) + (Trailer(body) + rest))
            == Done(rest, SubMessage(None, None, attrs, body))
  {
    var z := Trailer(body) + rest;
    var kv := (order[0], attrs[order[0]]);
    var tail := AttrLines(attrs, order[1..]) + z;
    Assoc(Line(kv), AttrLines(attrs, order[1..]), z);
    AttrOfLine(kv, tail);
    AttrsOfLines(attrs, order[1..], z);
    PBodyOfTrailer(body, rest);
    assert [kv] + Pairs(attrs, order[1..]) == Pairs(attrs, order);
    CollectEnumeration(attrs, order);
  }

  /** `From<&[u8]> for Message`: the packet at the front of the bytes; anything else is a panic. */
  function FromBytes(bs: Bytes): (m: Message)
    requires Parse(bs).Ok?
    ensures WellFormed(m) && ParseMessage(bs).Done? && ParseMessage(bs).value == m
  {
    Parse(bs).value
  }

  // The examples of the library's own tests, with each input written as the
  // concatenation of its parts.

  lemma ParseBasic()
    ensures Parse("foo" + (" bar" + ("\n" + ("baz=qux\n" + ("\n" + "this is the body\0")))))
            == Ok(Message("foo", Some("bar"), map["baz" := "qux"], Some(MessageBody("this is the body\0"))))
  {
    var m := Message("foo", Some("bar"), map["baz" := "qux"], Some(MessageBody("this is the body\0")));
    BasicWellFormed(m);
    BasicEncoding(m);
    ParseIgnoresTrailing(m, ["baz"], []);
  }

  lemma BasicWellFormed(m: Message)
    requires m == Message("foo", Some("bar"), map["baz" := "qux"], Some(MessageBody("this is the body\0")))
    ensures WellFormed(m) && IsEnumeration(["baz"], m.attrs.Keys)
  {
    var body := m.body.value.bytes;
    assert NulTerminated(body) by {
      var text: Bytes := "this is the body";
      assert body == text + [NUL];
      assert body[..|body| - 1] == text;
      assert forall i | 0 <= i < |text| :: text[i] != NUL;
    }
    assert IsName(m.name);
  }

  lemma BasicEncoding(m: Message)
    requires m == Message("foo", Some("bar"), map["baz" := "qux"], Some(MessageBody("this is the body\0")))
    ensures Encoding(m, ["baz"]) + [] == "foo" + (" bar" + ("\n" + ("baz=qux\n" + ("\n" + "this is the body\0"))))
  {
    assert AttrLines(m.attrs, ["baz"]) == "baz=qux\n";
    assert ArgPart(m.argument) == " bar";
    var e := Encoding(m, ["baz"]);
    assert e + [] == e;
  }

  /** A packet whose attribute lines are followed by a NUL has no body. */
  lemma ParseNoBody()
    ensures Parse("foo" + (" bar" + ("\n" + ("baz=qux\n" + "\0")))) == Ok(Message("foo", Some("bar"), map["baz" := "qux"], None))
  {
    var m := Message("foo", Some("bar"), map["baz" := "qux"], None);
    assert IsName(m.name);
    assert IsEnumeration(["baz"], m.attrs.Keys);
    assert AttrLines(m.attrs, ["baz"]) == "baz=qux\n";
    assert ArgPart(m.argument) == " bar";
    assert Encoding(m, ["baz"]) + [] == "foo" + (" bar" + ("\n" + ("baz=qux\n" + "\0")));
    ParseIgnoresTrailing(m, ["baz"], []);
  }

  /** A header followed directly by a NUL: no attributes and no body. */
  lemma ParseNoAttrs()
    ensures Parse("foo" + (" bar" + ("\n" + "\0"))) == Ok(Message("foo", Some("bar"), map[], None))
  {
    var m := Message("foo", Some("bar"), map[], None);
    assert IsName(m.name);
    assert ArgPart(m.argument) == " bar";
    assert Encoding(m, []) + [] == "foo" + (" bar" + ("\n" + "\0"));
    ParseIgnoresTrailing(m, [], []);
  }

  lemma ParseNoArg()
    ensures Parse("foo" + ("\n" + "\0")) == Ok(Message("foo", None, map[], None))
  {
    var m := Message("foo", None, map[], None);
    assert IsName(m.name);
    assert Encoding(m, []) + [] == "foo" + ("\n" + "\0");
    ParseIgnoresTrailing(m, [], []);
  }

  /** The body of `foo\n\na=b\nc=d\n\0` read as a sub-packet of two attributes. */
  lemma ParseSub()
    ensures Parse("foo" + ("\n" + ("\n" + "a=b\nc=d\n\0")))
            == Ok(Message("foo", None, map[], Some(MessageBody("a=b\nc=d\n\0"))))
    ensures Submessage(MessageBody("a=b\nc=d\n\0")) == Ok(SubMessage(None, None, map["a" := "b", "c" := "d"], None))
  {
    var body: Bytes := "a=b\nc=d\n\0";
    var m := Message("foo", None, map[], Some(MessageBody(body)));
    assert NulTerminated(body) by {
      var text: Bytes := "a=b\nc=d\n";
      assert body == text + [NUL];
      assert body[..|body| - 1] == text;
    }
    assert IsName(m.name);
    assert Encoding(m, []) + [] == "foo" + ("\n" + ("\n" + body));
    ParseIgnoresTrailing(m, [], []);
    SubBody();
  }

  lemma SubBody()
    ensures Submessage(MessageBody("a=b\nc=d\n\0")) == Ok(SubMessage(None, None, map["a" := "b", "c" := "d"], None))
  {
    var attrs: map<Bytes, Bytes> := map["a" := "b", "c" := "d"];
    assert IsEnumeration(["a", "c"], attrs.Keys);
    assert AttrLines(attrs, ["c"]) == "c=d\n";
    assert AttrLines(attrs, ["a", "c"]) == "a=b\nc=d\n";
    assert AttrLines(attrs, ["a", "c"]) + (Trailer(None) + []) == "a=b\nc=d\n\0";
    SubmessageOfAttrs(attrs, ["a", "c"], None, []);
  }
}
