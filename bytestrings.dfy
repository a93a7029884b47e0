/**
 * Byte strings as the wire format and the bot's text handling see them.
 * A byte is a char no greater than 0xFF; text is handled byte by byte, so a
 * multi-byte UTF-8 character appears as its individual bytes.
 */
module ByteStrings {
  import opened Wrappers

  type byte = c: char | c <= '\U{FF}'
  type Bytes = seq<byte>

  const NUL: byte := '\0'
  const NL: byte := '\n'
  const SP: byte := ' '
  const TAB: byte := '\t'
  const AMP: byte := '&'

  predicate IsAlpha(c: byte) { 'A' <= c <= 'Z' || 'a' <= c <= 'z' }
  predicate IsDigit(c: byte) { '0' <= c <= '9' }
  predicate IsAlnum(c: byte) { IsAlpha(c) || IsDigit(c) }

  predicate StartsWith(s: Bytes, p: Bytes) { |p| <= |s| && s[..|p|] == p }

  /** Regrouping a concatenation, cited where a proof needs it. */
  lemma Assoc(a: Bytes, b: Bytes, c: Bytes)
    ensures (a + b) + c == a + (b + c)
  {}

  /** Starting with `t` and then, after it, with `c` is starting with `t + c`. */
  lemma StartsWithConcat(s: Bytes, t: Bytes, c: Bytes)
    ensures (StartsWith(s, t) && StartsWith(s[|t|..], c)) <==> StartsWith(s, t + c)
  {
    if StartsWith(s, t + c) {
      assert s[..|t|] == (t + c)[..|t|] == t;
      assert s[|t|..][..|c|] == s[..|t| + |c|][|t|..] == c;
    }
    if StartsWith(s, t) && StartsWith(s[|t|..], c) {
      assert s[..|t| + |c|] == s[..|t|] + s[|t|..][..|c|];
    }
  }

  /** Ends with a NUL and holds no other: the shape of a body and of a frame on the wire. */
  predicate NulTerminated(b: Bytes) { |b| > 0 && b[|b| - 1] == NUL && NUL !in b[..|b| - 1] }

  /** Bytes without a NUL in front of a NUL-terminated string keep it NUL-terminated. */
  lemma NulTerminatedAppend(a: Bytes, b: Bytes)
    requires NUL !in a && NulTerminated(b)
    ensures NulTerminated(a + b)
  {
    assert (a + b)[..|a + b| - 1] == a + b[..|b| - 1];
  }

  predicate All(s: Bytes, p: byte -> bool) { forall i | 0 <= i < |s| :: p(s[i]) }

  /** `Iterator::position` for a single byte: the index of its first occurrence. */
  function Position(s: Bytes, b: byte): (r: Option<nat>)
    ensures r.None? <==> b !in s
    ensures r.Some? ==> r.value < |s| && s[r.value] == b && b !in s[..r.value]
  {
    if s == [] then None
    else if s[0] == b then Some(0)
    else match Position(s[1..], b)
      case None => None
      case Some(i) =>
        assert s[..i + 1] == [s[0]] + s[1..][..i];
        Some(i + 1)
  }

  /** A non-empty sequence is its head followed by its tail. */
  lemma HeadTail<T>(s: seq<T>)
    requires |s| > 0
    ensures [s[0]] + s[1..] == s
  {}

  /** Dropping the head of a concatenation drops it from the left part. */
  lemma TailAppend<T>(a: seq<T>, b: seq<T>)
    requires |a| > 0
    ensures (a + b)[0] == a[0] && (a + b)[1..] == a[1..] + b
  {}

  /** A prefix one longer is the shorter prefix and the next element. */
  lemma TakeSnoc<T>(s: seq<T>, i: nat)
    requires i < |s|
    ensures s[..i + 1] == s[..i] + [s[i]]
  {}

  /** The first occurrence of a byte sits right after a prefix that does not contain it. */
  lemma {:induction false} PositionAfter(a: Bytes, b: byte, c: Bytes)
    requires b !in a
    ensures Position(a + ([b] + c), b) == Some(|a|)
  {
    var s := a + ([b] + c);
    assert s[|a|] == b;
    assert s[..|a|] == a;
    assert forall k | |a| < k <= |s| :: s[..k][|a|] == b;
  }

  /** Length of the longest prefix of `s` whose bytes all satisfy `p`. */
  function Span(s: Bytes, p: byte -> bool): (n: nat)
    ensures n <= |s| && All(s[..n], p)
    ensures n < |s| ==> !p(s[n])
  {
    if s == [] || !p(s[0]) then 0
    else
      var n := Span(s[1..], p);
      assert s[..n + 1] == [s[0]] + s[1..][..n];
      n + 1
  }

  /** The span over `a + b` is `a` itself when all of `a` qualifies and `b` starts with a byte that does not. */
  lemma {:induction false} SpanStops(a: Bytes, b: Bytes, p: byte -> bool)
    requires All(a, p) && b != [] && !p(b[0])
    ensures Span(a + b, p) == |a|
  {
    assert (a + b)[..|a|] == a;
    assert (a + b)[|a|] == b[0];
    assert forall k | |a| < k <= |a + b| :: (a + b)[..k][|a|] == b[0];
  }

  /** The digit character for 0 <= d < 10. */
  function DigitChar(d: nat): (c: byte)
    requires d < 10
    ensures IsDigit(c)
  {
    (48 + d) as char
  }

  function DigitValue(c: byte): (d: nat)
    requires IsDigit(c)
    ensures d < 10 && DigitChar(d) == c
  {
    c as int - 48
  }

  /** `format!("{}", n)` for an unsigned integer. */
  function Decimal(n: nat): (r: Bytes)
    ensures |r| > 0 && All(r, IsDigit)
    ensures r[0] == '0' ==> n == 0
    decreases n
  {
    if n < 10 then [DigitChar(n)] else Decimal(n / 10) + [DigitChar(n % 10)]
  }

  /** The value of a run of decimal digits (leading zeros allowed). */
  function DigitsValue(s: Bytes): nat
    requires All(s, IsDigit)
  {
    if s == [] then 0 else DigitsValue(s[..|s| - 1]) * 10 + DigitValue(s[|s| - 1])
  }

  /** Printing a number in decimal and reading the digits back gives the number. */
  lemma {:induction false} DecimalRoundTrip(n: nat)
    ensures DigitsValue(Decimal(n)) == n
    decreases n
  {
    var r := Decimal(n);
    if n >= 10 {
      DecimalRoundTrip(n / 10);
      assert r[..|r| - 1] == Decimal(n / 10);
      assert DigitValue(r[|r| - 1]) == n % 10;
    } else {
      assert DigitValue(r[0]) == n;
    }
  }

  /** `names.join(sep)` */
  function Join(names: seq<Bytes>, sep: Bytes): (r: Bytes)
    ensures names == [] ==> r == []
    ensures names != [] ==> StartsWith(r, names[0])
  {
    if names == [] then [] else if |names| == 1 then names[0] else names[0] + (sep + Join(names[1..], sep))
  }

  /**
   * `join` builds its result as a loop does: the first name, then for each
   * further name the separator and that name. Joining one more name appends
   * the separator and the name.
   */
  lemma {:induction false} JoinSnoc(names: seq<Bytes>, n: Bytes, sep: Bytes)
    requires names != []
    ensures Join(names + [n], sep) == Join(names, sep) + (sep + n)
    decreases |names|
  {
    var ns := names + [n];
    assert ns[0] == names[0];
    if |names| == 1 {
      assert ns[1..] == [n];
    } else {
      assert ns[1..] == names[1..] + [n];
      JoinSnoc(names[1..], n, sep);
    }
  }
}
