/**
 * The framing codec of src/codec.rs. Inbound bytes are cut into frames at
 * the first NUL and each frame is parsed as a packet; outbound packets are
 * appended to the write buffer as their bytes.
 */
module Codec {
  import opened Wrappers
  import opened ByteStrings
  import opened Packet

  /** `BytesMut`: the read or the write buffer of the connection. */
  class Buffer {
    var contents: Bytes

    constructor (init: Bytes)
      ensures contents == init
    {
      contents := init;
    }

    /** `BytesMut::split_to`: removes the first `n` bytes and hands them back. */
    method SplitTo(n: nat) returns (front: Bytes)
      requires n <= |contents|
      modifies this
      ensures front == old(contents)[..n] && contents == old(contents)[n..]
    {
      front := contents[..n];
      contents := contents[n..];
    }

    /** `Extend::extend`: appends after the existing contents. */
    method Extend(bs: Bytes)
      modifies this
      ensures contents == old(contents) + bs
    {
      contents := contents + bs;
    }
  }

  /** `MarsError` built from a parse error. */
  datatype CodecError = BadPacket

  /** The frame at the front of the buffer: every byte up to and including the first NUL. */
  function Frame(s: Bytes): (f: Option<Bytes>)
    ensures f.None? <==> NUL !in s
    ensures f.Some? ==> NulTerminated(f.value) && StartsWith(s, f.value)
  {
    match Position(s, NUL)
    case None => None
    case Some(i) =>
      assert s[..i + 1][..i] == s[..i];
      Some(s[..i + 1])
  }

  /** A NUL-terminated prefix of the buffer is the frame: no shorter or longer prefix ends with the first NUL. */
  lemma FrameUnique(s: Bytes, f: Bytes)
    requires StartsWith(s, f) && NulTerminated(f)
    ensures Frame(s) == Some(f)
  {
    var a := f[..|f| - 1];
    assert s == a + ([NUL] + s[|f|..]);
    PositionAfter(a, NUL, s[|f|..]);
  }

  /** The outcome of parsing one frame. */
  function Decoded(frame: Bytes): Result<Option<Message>, CodecError> {
    match Parse(frame)
    case Ok(m) => Ok(Some(m))
    case Err(_) => Err(BadPacket)
  }

  /**
   * `Decoder::decode`. Without a NUL the buffer is left alone and nothing is
   * returned; otherwise the frame is taken off the front, whether or not it
   * then parses.
   */
  method Decode(buf: Buffer) returns (r: Result<Option<Message>, CodecError>)
    modifies buf
    ensures Frame(old(buf.contents)).None? ==> r == Ok(None) && buf.contents == old(buf.contents)
    ensures Frame(old(buf.contents)).Some? ==>
              var f := Frame(old(buf.contents)).value;
              old(buf.contents) == f + buf.contents && r == Decoded(f)
  {
    match Position(buf.contents, NUL)
    case None =>
      r := Ok(None);
    case Some(i) =>
      ghost var before := buf.contents;
      var line := buf.SplitTo(i + 1);
      assert before == line + buf.contents;
      match Parse(line) {
        case Ok(msg) => r := Ok(Some(msg));
        case Err(_) => r := Err(BadPacket);
      }
  }

  /** `Encoder::encode`: the packet's bytes go after what the buffer already holds; it cannot fail. */
  method Encode(m: Message, buf: Buffer) returns (r: Result<(), CodecError>, ghost order: seq<Bytes>)
    modifies buf
    ensures r.Ok?
    ensures IsEnumeration(order, m.attrs.Keys)
    ensures buf.contents == old(buf.contents) + Encoding(m, order)
  {
    var bytes;
    bytes, order := AsBytes(m);
    buf.Extend(bytes);
    r := Ok(());
  }

  /** The argument and the attribute values hold no NUL (the name and the keys never do). */
  predicate NulFreeHeader(m: Message) {
    && (m.argument.Some? ==> NUL !in m.argument.value)
    && forall k | k in m.attrs :: NUL !in m.attrs[k]
  }

  lemma {:induction false} AttrLinesNulFree(attrs: map<Bytes, Bytes>, order: seq<Bytes>)
    requires forall k | k in order :: k in attrs && IsKey(k) && NUL !in attrs[k]
    ensures NUL !in AttrLines(attrs, order)
  {
    if order != [] {
      var k := order[0];
      assert NUL !in k by {
        assert forall i | 0 <= i < |k| :: IsAlnum(k[i]);
      }
      AttrLinesNulFree(attrs, order[1..]);
    }
  }

  /** The encoding of a packet ends with its first NUL. */
  lemma EncodingNulTerminated(m: Message, order: seq<Bytes>)
    requires WellFormed(m) && IsEnumeration(order, m.attrs.Keys) && NulFreeHeader(m)
    ensures NulTerminated(Encoding(m, order))
  {
    var attrs := AttrLines(m.attrs, order);
    var h := m.name + (ArgPart(m.argument) + ([NL] + attrs));
    var t := Trailer(m.body);
    assert Encoding(m, order) == h + t by {
      Assoc(ArgPart(m.argument), [NL] + attrs, t);
      Assoc([NL], attrs, t);
      Assoc(m.name, ArgPart(m.argument) + ([NL] + attrs), t);
    }
    assert NUL !in h by {
      assert NUL !in m.name by {
        assert forall i | 0 <= i < |m.name| :: IsAlpha(m.name[i]);
      }
      AttrLinesNulFree(m.attrs, order);
    }
    assert |t| > 0 && t[|t| - 1] == NUL && NUL !in t[..|t| - 1] by {
      if m.body.Some? {
        var b := m.body.value.bytes;
        assert t[..|t| - 1] == [NL] + b[..|b| - 1];
      }
    }
    assert (h + t)[..|h + t| - 1] == h + t[..|t| - 1];
  }

  /** A packet written by `encode` is read back whole by `decode`, leaving whatever followed it. */
  lemma EncodeThenDecode(m: Message, order: seq<Bytes>, rest: Bytes)
    requires WellFormed(m) && IsEnumeration(order, m.attrs.Keys) && NulFreeHeader(m)
    ensures Frame(Encoding(m, order) + rest) == Some(Encoding(m, order))
    ensures Decoded(Encoding(m, order)) == Ok(Some(m))
  {
    var e := Encoding(m, order);
    EncodingNulTerminated(m, order);
    assert (e + rest)[..|e|] == e;
    FrameUnique(e + rest, e);
    ParseIgnoresTrailing(m, order, []);
    assert e + [] == e;
  }

  /** One packet through both halves of the codec, followed by unrelated bytes on the same stream. */
  method RoundTrip(m: Message, rest: Bytes) returns (r: Result<Option<Message>, CodecError>, left: Bytes)
    requires WellFormed(m) && NulFreeHeader(m)
    ensures r == Ok(Some(m)) && left == rest
  {
    var buf := new Buffer([]);
    var written;
    ghost var order;
    written, order := Encode(m, buf);
    ghost var e := Encoding(m, order);
    assert buf.contents == e;
    buf.Extend(rest);
    EncodeThenDecode(m, order, rest);
    ghost var before := buf.contents;
    r := Decode(buf);
    assert before == e + buf.contents;
    assert buf.contents == before[|e|..];
    left := buf.contents;
  }
}
