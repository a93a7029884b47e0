/**
 * The parser combinators of the nom 3 library that the packet grammar, the
 * tablump tokenizer and the word-war parser are built from, on complete input.
 * A parser either succeeds with the unread input and a value, fails, or runs out
 * of input; `many0!`, `opt!` and `alt!` treat the last two differently, so the
 * difference is kept.
 */
module Nom {
  import opened Wrappers
  import opened ByteStrings

  datatype Parsed<T> = Parsed(rest: Bytes, value: T)

  datatype IResult<T> = Done(rest: Bytes, value: T) | Error | Incomplete {
    predicate IsFailure() { !Done? }

    function PropagateFailure<U>(): IResult<U>
      requires IsFailure()
    {
      if Error? then Error else Incomplete
    }

    function Extract(): Parsed<T>
      requires Done?
    {
      Parsed(rest, value)
    }
  }

  /** `tag!(t)`: the input starts with `t`; an input that is a proper prefix of `t` is incomplete. */
  function Tag(s: Bytes, t: Bytes): (r: IResult<Bytes>)
    ensures r.Done? <==> StartsWith(s, t)
    ensures r.Done? ==> r.value == t && s == t + r.rest
    ensures r.Incomplete? <==> |s| < |t| && t[..|s|] == s
  {
    if |s| < |t| then
      if t[..|s|] == s then Incomplete else Error
    else if s[..|t|] == t then
      assert s == t + s[|t|..];
      Done(s[|t|..], t)
    else Error
  }

  /** `take_while1!(p)`, and `alpha`, `alphanumeric` and `digit`, which behave alike. */
  function TakeWhile1(s: Bytes, p: byte -> bool): (r: IResult<Bytes>)
    ensures r.Incomplete? <==> s == []
    ensures r.Error? <==> s != [] && !p(s[0])
    ensures r.Done? ==> |r.value| > 0 && s == r.value + r.rest && All(r.value, p)
    ensures r.Done? && r.rest != [] ==> !p(r.rest[0])
  {
    if s == [] then Incomplete
    else if !p(s[0]) then Error
    else
      var n := Span(s, p);
      assert s == s[..n] + s[n..];
      Done(s[n..], s[..n])
  }

  /** `take_until!` with a one-byte needle: everything before its first occurrence. */
  function TakeUntil(s: Bytes, b: byte): (r: IResult<Bytes>)
    ensures !r.Error?
    ensures r.Incomplete? <==> b !in s
    ensures r.Done? ==> b !in r.value && s == r.value + r.rest && r.rest != [] && r.rest[0] == b
  {
    match Position(s, b)
    case None => Incomplete
    case Some(k) =>
      assert s == s[..k] + s[k..];
      Done(s[k..], s[..k])
  }

  /** `take_until1!` with a one-byte needle: like `take_until!`, but an empty result is an error. */
  function TakeUntil1(s: Bytes, b: byte): (r: IResult<Bytes>)
    ensures r.Incomplete? <==> b !in s || |s| < 2
    ensures r.Error? <==> |s| >= 2 && s[0] == b
    ensures r.Done? ==> |r.value| > 0 && b !in r.value && s == r.value + r.rest && r.rest[0] == b
  {
    if |s| < 2 then Incomplete
    else match Position(s, b)
      case None => Incomplete
      case Some(k) =>
        if k == 0 then Error
        else
          assert s == s[..k] + s[k..];
          Done(s[k..], s[..k])
  }

  /** `take_till!`: everything before the first `b`, or the whole input when there is none. */
  function TakeTill(s: Bytes, b: byte): (r: IResult<Bytes>)
    ensures r.Done? && b !in r.value && s == r.value + r.rest
    ensures r.rest != [] ==> r.rest[0] == b
  {
    match Position(s, b)
    case None => Done([], s)
    case Some(k) =>
      assert s == s[..k] + s[k..];
      Done(s[k..], s[..k])
  }

  /** `be_u8`: one byte. */
  function BeU8(s: Bytes): (r: IResult<byte>)
    ensures r.Incomplete? <==> s == []
    ensures r.Done? ==> s == [r.value] + r.rest
    ensures !r.Error?
  {
    if s == [] then Incomplete else Done(s[1..], s[0])
  }

  /** `take_while1!` stops exactly where the qualifying run ends. */
  lemma TakeWhile1Split(a: Bytes, b: Bytes, p: byte -> bool)
    requires |a| > 0 && All(a, p) && b != [] && !p(b[0])
    ensures TakeWhile1(a + b, p) == Done(b, a)
  {
    SpanStops(a, b, p);
    assert (a + b)[..|a|] == a && (a + b)[|a|..] == b;
  }

  /** `take_until!` stops at the first occurrence of the needle. */
  lemma TakeUntilSplit(a: Bytes, b: byte, c: Bytes)
    requires b !in a
    ensures TakeUntil(a + ([b] + c), b) == Done([b] + c, a)
  {
    PositionAfter(a, b, c);
    var s := a + ([b] + c);
    assert s[..|a|] == a && s[|a|..] == [b] + c;
  }

  /** `tag!` takes exactly its literal off an input that starts with it. */
  lemma TagOfPrefix(t: Bytes, rest: Bytes)
    ensures Tag(t + rest, t) == Done(rest, t)
  {
    assert (t + rest)[..|t|] == t && (t + rest)[|t|..] == rest;
  }

  /** `take_while1!` over an input that qualifies throughout takes all of it. */
  lemma TakeWhile1All(a: Bytes, p: byte -> bool)
    requires |a| > 0 && All(a, p)
    ensures TakeWhile1(a, p) == Done([], a)
  {
    assert a[..|a|] == a;
  }
}
