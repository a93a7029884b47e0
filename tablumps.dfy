/**
 * Tablumps, the inline markup of dAmn message bodies (damnpacket/src/tablumps.rs):
 * a tag is `&name\t` (or `&/name\t` for a closer) followed by a fixed number
 * of tab-terminated arguments. Text is split into literal runs and tags,
 * adjacent literals are merged, and every token is rendered to HTML-ish text.
 */
module Tablumps {
  import opened Wrappers
  import opened ByteStrings
  import opened Nom

  // ------------------------------------------------------------------ tags

  datatype Kind =
    | A | CloseA | Abbr | CloseAbbr | Acro | CloseAcro | Avatar
    | B | CloseB | Bcode | CloseBcode | Br | Code | CloseCode | Dev
    | Embed | CloseEmbed | Emote | I | CloseI | Iframe | CloseIframe | Img
    | Li | CloseLi | Ol | CloseOl | P | CloseP | S | CloseS
    | Sub | CloseSub | Sup | CloseSup | Thumb | U | CloseU | Ul | CloseUl

  /** A decoded tag: one of the fixed kinds with its arguments, or a link. */
  datatype Tablump = Lump(kind: Kind, args: seq<Bytes>) | Link(href: Bytes, text: Option<Bytes>)

  /** The kinds read from a closing tag `&/x\t`. */
  predicate IsCloser(k: Kind) {
    match k
    case CloseA | CloseAbbr | CloseAcro | CloseB | CloseBcode | CloseCode | CloseEmbed | CloseI
       | CloseIframe | CloseLi | CloseOl | CloseP | CloseS | CloseSub | CloseSup | CloseU | CloseUl => true
    case _ => false
  }

  /** How many `arg`s each alternative of `lump` reads after its tag. */
  function Arity(k: Kind): nat {
    match k
    case A | Avatar | Dev => 2
    case Abbr | Acro => 1
    case Embed | Iframe | Img => 3
    case Emote => 5
    case Thumb => 6
    case _ => 0
  }

  /** One alternative of `lump`: a plain tag with its arguments, or `link`. */
  datatype Alternative = Plain(kind: Kind) | LinkAlt

  /** What stands between the `&` and the tab in the alternative's `tag!`. */
  function Body(a: Alternative): (r: Bytes)
    ensures |r| > 0 && TAB !in r
  {
    match a
    case Plain(A) => "a"             case Plain(CloseA) => "/a"
    case Plain(Abbr) => "abbr"       case Plain(CloseAbbr) => "/abbr"
    case Plain(Acro) => "acro"       case Plain(CloseAcro) => "/acro"
    case Plain(Avatar) => "avatar"
    case Plain(B) => "b"             case Plain(CloseB) => "/b"
    case Plain(Bcode) => "bcode"     case Plain(CloseBcode) => "/bcode"
    case Plain(Br) => "br"
    case Plain(Code) => "code"       case Plain(CloseCode) => "/code"
    case Plain(Dev) => "dev"
    case Plain(Embed) => "embed"     case Plain(CloseEmbed) => "/embed"
    case Plain(Emote) => "emote"
    case Plain(I) => "i"             case Plain(CloseI) => "/i"
    case Plain(Iframe) => "iframe"   case Plain(CloseIframe) => "/iframe"
    case Plain(Img) => "img"
    case Plain(Li) => "li"           case Plain(CloseLi) => "/li"
    case LinkAlt => "link"
    case Plain(Ol) => "ol"           case Plain(CloseOl) => "/ol"
    case Plain(P) => "p"             case Plain(CloseP) => "/p"
    case Plain(S) => "s"             case Plain(CloseS) => "/s"
    case Plain(Sub) => "sub"         case Plain(CloseSub) => "/sub"
    case Plain(Sup) => "sup"         case Plain(CloseSup) => "/sup"
    case Plain(Thumb) => "thumb"
    case Plain(U) => "u"             case Plain(CloseU) => "/u"
    case Plain(Ul) => "ul"           case Plain(CloseUl) => "/ul"
  }

  lemma BodyInjective(a1: Alternative, a2: Alternative)
    requires Body(a1) == Body(a2)
    ensures a1 == a2
  {}

  /** The literal that the alternative's `tag!` matches, such as `&b\t` or `&/abbr\t`. */
  function TagLiteral(a: Alternative): Bytes {
    [AMP] + (Body(a) + [TAB])
  }

  /** The alternatives of `lump` in the order they are tried. */
  const Table: seq<Alternative> := [
    Plain(A), Plain(CloseA), Plain(Abbr), Plain(CloseAbbr), Plain(Acro), Plain(CloseAcro),
    Plain(Avatar), Plain(B), Plain(CloseB), Plain(Bcode), Plain(CloseBcode), Plain(Br),
    Plain(Code), Plain(CloseCode), Plain(Dev), Plain(Embed), Plain(CloseEmbed), Plain(Emote),
    Plain(I), Plain(CloseI), Plain(Iframe), Plain(CloseIframe), Plain(Img), Plain(Li),
    Plain(CloseLi), LinkAlt, Plain(Ol), Plain(CloseOl), Plain(P), Plain(CloseP), Plain(S),
    Plain(CloseS), Plain(Sub), Plain(CloseSub), Plain(Sup), Plain(CloseSup), Plain(Thumb),
    Plain(U), Plain(CloseU), Plain(Ul), Plain(CloseUl)]

  /** The position of each alternative in the table. */
  function Index(a: Alternative): (i: nat)
    ensures i < |Table| && Table[i] == a
  {
    match a
    case Plain(A) => 0         case Plain(CloseA) => 1
    case Plain(Abbr) => 2      case Plain(CloseAbbr) => 3
    case Plain(Acro) => 4      case Plain(CloseAcro) => 5
    case Plain(Avatar) => 6
    case Plain(B) => 7         case Plain(CloseB) => 8
    case Plain(Bcode) => 9     case Plain(CloseBcode) => 10
    case Plain(Br) => 11
    case Plain(Code) => 12     case Plain(CloseCode) => 13
    case Plain(Dev) => 14
    case Plain(Embed) => 15    case Plain(CloseEmbed) => 16
    case Plain(Emote) => 17
    case Plain(I) => 18        case Plain(CloseI) => 19
    case Plain(Iframe) => 20   case Plain(CloseIframe) => 21
    case Plain(Img) => 22
    case Plain(Li) => 23       case Plain(CloseLi) => 24
    case LinkAlt => 25
    case Plain(Ol) => 26       case Plain(CloseOl) => 27
    case Plain(P) => 28        case Plain(CloseP) => 29
    case Plain(S) => 30        case Plain(CloseS) => 31
    case Plain(Sub) => 32      case Plain(CloseSub) => 33
    case Plain(Sup) => 34      case Plain(CloseSup) => 35
    case Plain(Thumb) => 36
    case Plain(U) => 37        case Plain(CloseU) => 38
    case Plain(Ul) => 39       case Plain(CloseUl) => 40
  }

  /** A tag literal ends in its only tab. */
  lemma TagLiteralShape(a: Alternative)
    ensures var l := TagLiteral(a); |l| >= 3 && l[0] == AMP && l[|l| - 1] == TAB
    ensures var l := TagLiteral(a); forall i | 0 <= i < |l| - 1 :: l[i] != TAB
  {
    var l := TagLiteral(a);
    assert l[..|l| - 1] == [AMP] + Body(a);
    assert forall i | 0 <= i < |l| - 1 :: l[i] == l[..|l| - 1][i];
  }

  lemma TagLiteralInjective(a1: Alternative, a2: Alternative)
    requires TagLiteral(a1) == TagLiteral(a2)
    ensures a1 == a2
  {
    var l := TagLiteral(a1);
    assert Body(a1) == l[1..|l| - 1] == Body(a2);
    BodyInjective(a1, a2);
  }

  /** No tag literal is a prefix of another. */
  lemma PrefixFree(a1: Alternative, a2: Alternative)
    requires StartsWith(TagLiteral(a2), TagLiteral(a1))
    ensures a1 == a2
  {
    var l1, l2 := TagLiteral(a1), TagLiteral(a2);
    TagLiteralShape(a1);
    TagLiteralShape(a2);
    assert l2[|l1| - 1] == l1[|l1| - 1] == TAB;
    assert |l1| == |l2|;
    assert l1 == l2;
    TagLiteralInjective(a1, a2);
  }

  // --------------------------------------------------------------- parsing

  /** The bytes of `args`, each followed by a tab, in front of `rest`. */
  function ArgsThen(args: seq<Bytes>, rest: Bytes): (r: Bytes)
    ensures |r| >= |rest|
  {
    if args == [] then rest else args[0] + ([TAB] + ArgsThen(args[1..], rest))
  }

  predicate TabFree(args: seq<Bytes>) {
    forall i | 0 <= i < |args| :: TAB !in args[i]
  }

  /** `arg`: the bytes up to the next tab, then the tab. */
  function Arg(s: Bytes): (r: IResult<Bytes>)
    ensures !r.Error?
    ensures r.Incomplete? <==> TAB !in s
    ensures r.Done? ==> TAB !in r.value && s == r.value + ([TAB] + r.rest)
  {
    match TakeUntil(s, TAB)
    case Done(i1, v) =>
      var Done(i2, _) := Tag(i1, [TAB]);
      Done(i2, v)
    case _ => Incomplete
  }

  lemma ArgOfBytes(a: Bytes, rest: Bytes)
    requires TAB !in a
    ensures Arg(a + ([TAB] + rest)) == Done(rest, a)
  {
    TakeUntilSplit(a, TAB, rest);
    assert Tag([TAB] + rest, [TAB]) == Done(rest, [TAB]);
  }

  /** `n` successive `arg`s, as the `do_parse!` of a tag with arity `n` reads them. */
  function Args(s: Bytes, n: nat): (r: IResult<seq<Bytes>>)
    ensures !r.Error?
    ensures r.Done? ==> |r.value| == n && TabFree(r.value) && s == ArgsThen(r.value, r.rest)
    decreases n
  {
    if n == 0 then Done(s, [])
    else
      match Arg(s)
      case Done(i1, a) =>
        (match Args(i1, n - 1)
         case Done(i2, more) =>
           var args := [a] + more;
           assert args[0] == a && args[1..] == more;
           Done(i2, args)
         case _ => Incomplete)
      case _ => Incomplete
  }

  /** Reading back `n` tab-free arguments. */
  lemma {:induction false} ArgsOfBytes(args: seq<Bytes>, rest: Bytes)
    requires TabFree(args)
    ensures Args(ArgsThen(args, rest), |args|) == Done(rest, args)
    decreases |args|
  {
    if args != [] {
      var tail := ArgsThen(args[1..], rest);
      assert Arg(ArgsThen(args, rest)) == Done(tail, args[0]) by {
        assert ArgsThen(args, rest) == args[0] + ([TAB] + tail);
        ArgOfBytes(args[0], tail);
      }
      assert Args(tail, |args[1..]|) == Done(rest, args[1..]) by {
        assert forall i | 0 <= i < |args| - 1 :: args[1..][i] == args[i + 1];
        ArgsOfBytes(args[1..], rest);
      }
      assert |args[1..]| == |args| - 1;
      HeadTail(args);
    }
  }

  /** A tag `lump` can produce: as many tab-free arguments as its kind takes, and a link text other than `&`. */
  predicate ValidLump(l: Tablump) {
    match l
    case Lump(k, args) => |args| == Arity(k) && TabFree(args)
    case Link(h, t) => TAB !in h && (t.Some? ==> TAB !in t.value && t.value != [AMP])
  }

  /** The alternative of `lump` that produces a tag. */
  function AltOf(l: Tablump): Alternative {
    match l
    case Lump(k, _) => Plain(k)
    case Link(_, _) => LinkAlt
  }

  /** The bytes of a tag, as `lump` reads it, in front of `rest`. */
  function LumpThen(l: Tablump, rest: Bytes): (r: Bytes)
    ensures |r| > |rest| && r[0] == AMP
  {
    match l
    case Lump(k, args) => TagLiteral(Plain(k)) + ArgsThen(args, rest)
    case Link(h, None) => TagLiteral(LinkAlt) + ArgsThen([h, [AMP]], rest)
    case Link(h, Some(t)) => TagLiteral(LinkAlt) + ArgsThen([h, t], [AMP, TAB] + rest)
  }

  lemma ArgsThenPair(a: Bytes, b: Bytes, rest: Bytes)
    ensures ArgsThen([a, b], rest) == a + ([TAB] + (b + ([TAB] + rest)))
  {
    assert [a, b][1..] == [b];
    assert [b][1..] == [];
    assert ArgsThen([b], rest) == b + ([TAB] + ArgsThen([], rest));
  }

  /** `link`: `&link\t`, the address, then either `&\t` or a text followed by `&\t`. */
  function LinkParse(s: Bytes): (r: IResult<Tablump>)
    ensures r.Done? ==> r.value.Link? && ValidLump(r.value) && s == LumpThen(r.value, r.rest)
  {
    match Tag(s, TagLiteral(LinkAlt))
    case Done(i1, _) =>
      (match Arg(i1)
       case Done(i2, href) =>
         (match Arg(i2)
          case Done(i3, text) =>
            if text == [AMP] then
              ArgsThenPair(href, text, i3);
              Done(i3, Link(href, None))
            else
              (match Tag(i3, [AMP, TAB])
               case Done(i4, _) =>
                 ArgsThenPair(href, text, i3);
                 Done(i4, Link(href, Some(text)))
               case Error => Error
               case Incomplete => Incomplete)
          case _ => Incomplete)
       case _ => Incomplete)
    case Error => Error
    case Incomplete => Incomplete
  }

  /** One alternative of `lump` on its own: its tag, then as many arguments as its kind takes. */
  function Alt(a: Alternative, s: Bytes): (r: IResult<Tablump>)
    ensures !StartsWith(s, TagLiteral(a)) && !StartsWith(TagLiteral(a), s) ==> r.Error?
    ensures r.Done? ==> AltOf(r.value) == a && ValidLump(r.value) && s == LumpThen(r.value, r.rest)
  {
    match a
    case Plain(k) =>
      var t :- Tag(s, TagLiteral(a));
      var args :- Args(t.rest, Arity(k));
      Done(args.rest, Lump(k, args.value))
    case LinkAlt => LinkParse(s)
  }

  /** `alt!` over the table from position `i` on: the first alternative that does not fail decides. */
  function Lumps(s: Bytes, i: nat): (r: IResult<Tablump>)
    requires i <= |Table|
    ensures r.Done? ==> ValidLump(r.value) && s == LumpThen(r.value, r.rest)
    decreases |Table| - i
  {
    if i == |Table| then Error
    else match Alt(Table[i], s)
      case Error => Lumps(s, i + 1)
      case r => r
  }

  /** `lump` */
  function ParseLump(s: Bytes): (r: IResult<Tablump>)
    ensures r.Done? ==> ValidLump(r.value) && s == LumpThen(r.value, r.rest)
  {
    Lumps(s, 0)
  }

  /** Two tag literals that agree up to the shorter one's length are the same literal. */
  lemma TagLiteralsAgree(a: Alternative, b: Alternative, m: nat)
    requires m == if |TagLiteral(a)| <= |TagLiteral(b)| then |TagLiteral(a)| else |TagLiteral(b)|
    requires TagLiteral(a)[..m] == TagLiteral(b)[..m]
    ensures a == b
  {
    var la, lb := TagLiteral(a), TagLiteral(b);
    TagLiteralShape(a);
    TagLiteralShape(b);
    assert la[m - 1] == la[..m][m - 1] == lb[..m][m - 1] == lb[m - 1];
    assert |la| == |lb|;
    assert la == la[..m] && lb == lb[..m];
    TagLiteralInjective(a, b);
  }

  lemma CommonPrefix(s: Bytes, p: Bytes, m: nat)
    requires m <= |s| && m <= |p| && (StartsWith(s, p) || StartsWith(p, s))
    ensures s[..m] == p[..m]
  {
    if StartsWith(s, p) {
      assert p[..m] == s[..|p|][..m];
    } else {
      assert s[..m] == p[..|s|][..m];
    }
  }

  /** On an input that starts with the literal of `a`, every other alternative fails. */
  lemma AltFailsOrAgrees(a: Alternative, b: Alternative, s: Bytes)
    requires StartsWith(s, TagLiteral(a))
    ensures Alt(b, s).Error? || a == b
  {
    var la, lb := TagLiteral(a), TagLiteral(b);
    if !Alt(b, s).Error? {
      var m := if |la| <= |lb| then |la| else |lb|;
      CommonPrefix(s, lb, m);
      assert la[..m] == s[..|la|][..m];
      TagLiteralsAgree(a, b, m);
    }
  }

  lemma {:induction false} LumpsFail(s: Bytes, a: Alternative, i: nat)
    requires i <= |Table| && StartsWith(s, TagLiteral(a)) && Alt(a, s).Error?
    ensures Lumps(s, i).Error?
    decreases |Table| - i
  {
    if i < |Table| {
      AltFailsOrAgrees(a, Table[i], s);
      LumpsFail(s, a, i + 1);
    }
  }

  lemma {:induction false} LumpsReach(s: Bytes, a: Alternative, i: nat, j: nat)
    requires i <= j < |Table| && Table[j] == a && StartsWith(s, TagLiteral(a))
    ensures Lumps(s, i) == Alt(a, s)
    decreases j - i
  {
    AltFailsOrAgrees(a, Table[i], s);
    if Alt(Table[i], s).Error? {
      if i < j {
        LumpsReach(s, a, i + 1, j);
      } else {
        LumpsFail(s, a, i + 1);
      }
    }
  }

  /** The order of the alternatives does not matter: the one whose literal starts the input decides. */
  lemma LumpByLiteral(a: Alternative, s: Bytes)
    requires StartsWith(s, TagLiteral(a))
    ensures ParseLump(s) == Alt(a, s)
  {
    LumpsReach(s, a, 0, Index(a));
  }

  lemma AltOfBytes(l: Tablump, rest: Bytes)
    requires ValidLump(l)
    ensures Alt(AltOf(l), LumpThen(l, rest)) == Done(rest, l)
  {
    match l
    case Lump(k, args) =>
      TagOfPrefix(TagLiteral(Plain(k)), ArgsThen(args, rest));
      ArgsOfBytes(args, rest);
    case Link(h, None) =>
      TagOfPrefix(TagLiteral(LinkAlt), ArgsThen([h, [AMP]], rest));
      ArgsThenPair(h, [AMP], rest);
      ArgOfBytes(h, [AMP] + ([TAB] + rest));
      ArgOfBytes([AMP], rest);
    case Link(h, Some(t)) =>
      var tail := [AMP, TAB] + rest;
      TagOfPrefix(TagLiteral(LinkAlt), ArgsThen([h, t], tail));
      ArgsThenPair(h, t, tail);
      ArgOfBytes(h, t + ([TAB] + tail));
      ArgOfBytes(t, tail);
      TagOfPrefix([AMP, TAB], rest);
  }

  /** Every tag `lump` can produce is read back from its bytes, whatever follows them. */
  lemma LumpRoundTrip(l: Tablump, rest: Bytes)
    requires ValidLump(l)
    ensures ParseLump(LumpThen(l, rest)) == Done(rest, l)
  {
    var a := AltOf(l);
    var s := LumpThen(l, rest);
    assert StartsWith(s, TagLiteral(a));
    LumpByLiteral(a, s);
    AltOfBytes(l, rest);
  }

  // ---------------------------------------------------------------- tokens

  /** An item of the parsed text: `Either::A`, literal bytes, or `Either::B`, a tag. */
  datatype Token = Text(bytes: Bytes) | Markup(lump: Tablump)

  predicate NotAmp(c: byte) { c != AMP }

  /** A token `tok` can produce: a non-empty run without `&`, a lone `&`, or a tag. */
  predicate RawToken(t: Token) {
    match t
    case Text(b) => b == [AMP] || (b != [] && All(b, NotAmp))
    case Markup(l) => ValidLump(l)
  }

  /** The bytes a token is read from, in front of `rest`. */
  function TokThen(t: Token, rest: Bytes): Bytes {
    match t
    case Text(b) => b + rest
    case Markup(l) => LumpThen(l, rest)
  }

  /** The bytes a sequence of tokens is read from. */
  function Source(ts: seq<Token>): Bytes {
    if ts == [] then [] else TokThen(ts[0], Source(ts[1..]))
  }

  /** `tok`: a run of non-`&` bytes, else a tag, else a lone `&` taken as text. */
  function Tok(s: Bytes): (r: IResult<Token>)
    ensures !r.Error?
    ensures r.Incomplete? <==> s == [] || (s[0] == AMP && ParseLump(s).Incomplete?)
    ensures r.Done? ==> RawToken(r.value) && |r.rest| < |s| && s == TokThen(r.value, r.rest)
    ensures r.Done? && r.value.Text? && r.value.bytes != [AMP] ==> r.rest == [] || r.rest[0] == AMP
  {
    match TakeWhile1(s, NotAmp)
    case Done(i, v) => Done(i, Text(v))
    case Incomplete => Incomplete
    case Error =>
      match ParseLump(s)
      case Done(i, l) => Done(i, Markup(l))
      case Incomplete => Incomplete
      case Error =>
        match Tag(s, [AMP])
        case Done(i, amp) => Done(i, Text(amp))
        case Incomplete => Incomplete
        case Error => Error
  }

  /** `many0!(tok)`: tokens until the input ends; an incomplete token makes the whole parse incomplete. */
  function Tokens(s: Bytes): (r: IResult<seq<Token>>)
    ensures !r.Error?
    ensures r.Done? ==> r.rest == [] && s == Source(r.value)
    ensures r.Done? ==> forall i | 0 <= i < |r.value| :: RawToken(r.value[i])
    decreases |s|
  {
    if s == [] then Done(s, [])
    else match Tok(s)
      case Done(i, t) =>
        (match Tokens(i)
         case Done(j, ts) =>
           var all := [t] + ts;
           assert all[0] == t && all[1..] == ts;
           Done(j, all)
         case Incomplete => Incomplete
         case Error => Error)
      case Error => Done(s, [])
      case Incomplete => Incomplete
  }

  // -------------------------------------------------------------- collapse

  /** What `collapse` holds part-way: the tokens pushed to `new` and the literal bytes in `left`. */
  datatype Pending = Pending(merged: seq<Token>, left: Bytes)

  /** `new` with the pending literal pushed, when there is one. */
  function Flush(p: Pending): seq<Token> {
    if |p.left| > 0 then p.merged + [Text(p.left)] else p.merged
  }

  /** One iteration of the loop of `collapse`. */
  function Step(p: Pending, t: Token): Pending {
    match t
    case Text(a) => Pending(p.merged, p.left + a)
    case Markup(l) => Pending(Flush(p) + [Markup(l)], [])
  }

  /** The loop of `collapse` over a whole sequence. */
  function Fold(ts: seq<Token>): Pending {
    if ts == [] then Pending([], []) else Step(Fold(ts[..|ts| - 1]), ts[|ts| - 1])
  }

  /** What `collapse` returns. */
  function Coalesce(ts: seq<Token>): seq<Token> {
    Flush(Fold(ts))
  }

  /** No empty literal and no two literals side by side. */
  predicate Normal(ts: seq<Token>) {
    (forall i | 0 <= i < |ts| :: ts[i].Text? ==> ts[i].bytes != []) &&
    (forall i, j | 0 <= i < |ts| && 0 <= j < |ts| && j == i + 1 :: !(ts[i].Text? && ts[j].Text?))
  }

  /** The tags of a token sequence, in order. */
  function Tags(ts: seq<Token>): seq<Tablump> {
    if ts == [] then []
    else if ts[|ts| - 1].Markup? then Tags(ts[..|ts| - 1]) + [ts[|ts| - 1].lump]
    else Tags(ts[..|ts| - 1])
  }

  lemma {:induction false} ArgsThenAppend(args: seq<Bytes>, x: Bytes, y: Bytes)
    ensures ArgsThen(args, x + y) == ArgsThen(args, x) + y
    decreases |args|
  {
    if args != [] {
      ArgsThenAppend(args[1..], x, y);
      var t := ArgsThen(args[1..], x);
      Assoc([TAB], t, y);
      Assoc(args[0], [TAB] + t, y);
    }
  }

  lemma TokThenAppend(t: Token, x: Bytes, y: Bytes)
    ensures TokThen(t, x + y) == TokThen(t, x) + y
  {
    match t
    case Text(b) => Assoc(b, x, y);
    case Markup(Lump(k, args)) =>
      ArgsThenAppend(args, x, y);
      Assoc(TagLiteral(Plain(k)), ArgsThen(args, x), y);
    case Markup(Link(h, None)) =>
      ArgsThenAppend([h, [AMP]], x, y);
      Assoc(TagLiteral(LinkAlt), ArgsThen([h, [AMP]], x), y);
    case Markup(Link(h, Some(text))) =>
      Assoc([AMP, TAB], x, y);
      ArgsThenAppend([h, text], [AMP, TAB] + x, y);
      Assoc(TagLiteral(LinkAlt), ArgsThen([h, text], [AMP, TAB] + x), y);
  }

  /** The source of two token sequences side by side is their sources side by side. */
  lemma {:induction false} SourceAppend(a: seq<Token>, b: seq<Token>)
    ensures Source(a + b) == Source(a) + Source(b)
    decreases |a|
  {
    if a != [] {
      TailAppend(a, b);
      SourceAppend(a[1..], b);
      TokThenAppend(a[0], Source(a[1..]), Source(b));
    } else {
      assert a + b == b;
    }
  }

  lemma SourceFlush(p: Pending)
    ensures Source(Flush(p)) == Source(p.merged) + p.left
  {
    if |p.left| > 0 {
      SourceAppend(p.merged, [Text(p.left)]);
      assert Source([Text(p.left)]) == p.left + Source([]);
    }
  }

  lemma {:induction false} FoldSource(ts: seq<Token>)
    ensures Source(Fold(ts).merged) + Fold(ts).left == Source(ts)
    decreases |ts|
  {
    if ts != [] {
      var init, last := ts[..|ts| - 1], ts[|ts| - 1];
      var p := Fold(init);
      FoldSource(init);
      assert init + [last] == ts;
      SourceAppend(init, [last]);
      assert Source([last]) == TokThen(last, []);
      match last
      case Text(a) =>
        Assoc(Source(p.merged), p.left, a);
      case Markup(l) =>
        SourceFlush(p);
        SourceAppend(Flush(p), [last]);
    }
  }

  /** `collapse` keeps the bytes of the text: only the grouping of literals changes. */
  lemma CoalesceSource(ts: seq<Token>)
    ensures Source(Coalesce(ts)) == Source(ts)
  {
    FoldSource(ts);
    SourceFlush(Fold(ts));
  }

  lemma {:induction false} FoldNormal(ts: seq<Token>)
    ensures var m := Fold(ts).merged; Normal(m) && (m != [] ==> m[|m| - 1].Markup?)
    decreases |ts|
  {
    if ts != [] {
      FoldNormal(ts[..|ts| - 1]);
    }
  }

  /** `collapse` never returns an empty literal or two literals side by side. */
  lemma CoalesceNormal(ts: seq<Token>)
    ensures Normal(Coalesce(ts))
  {
    FoldNormal(ts);
  }

  lemma TagsSnoc(ts: seq<Token>, t: Token)
    ensures Tags(ts + [t]) == if t.Markup? then Tags(ts) + [t.lump] else Tags(ts)
  {
    assert (ts + [t])[..|ts|] == ts;
  }

  lemma {:induction false} FoldTags(ts: seq<Token>)
    ensures Tags(Fold(ts).merged) == Tags(ts)
    decreases |ts|
  {
    if ts != [] {
      var init, last := ts[..|ts| - 1], ts[|ts| - 1];
      var p := Fold(init);
      FoldTags(init);
      if last.Markup? {
        if |p.left| > 0 {
          TagsSnoc(p.merged, Text(p.left));
        }
        TagsSnoc(Flush(p), last);
      }
    }
  }

  /** `collapse` keeps every tag, in order. */
  lemma CoalesceTags(ts: seq<Token>)
    ensures Tags(Coalesce(ts)) == Tags(ts)
  {
    FoldTags(ts);
    if |Fold(ts).left| > 0 {
      TagsSnoc(Fold(ts).merged, Text(Fold(ts).left));
    }
  }

  lemma {:induction false} FoldOfNormal(ts: seq<Token>)
    requires Normal(ts)
    ensures ts != [] && ts[|ts| - 1].Text? ==> Fold(ts) == Pending(ts[..|ts| - 1], ts[|ts| - 1].bytes)
    ensures ts == [] || ts[|ts| - 1].Markup? ==> Fold(ts) == Pending(ts, [])
    decreases |ts|
  {
    if ts != [] {
      var init, last := ts[..|ts| - 1], ts[|ts| - 1];
      NormalInit(ts);
      FoldOfNormal(init);
      assert init + [last] == ts;
      if init != [] && init[|init| - 1].Text? {
        assert last.Markup? by {
          assert !(ts[|ts| - 2].Text? && ts[|ts| - 1].Text?);
        }
        assert init[..|init| - 1] + [init[|init| - 1]] == init;
      }
    }
  }

  /** Dropping the last token keeps a sequence normal. */
  lemma NormalInit(ts: seq<Token>)
    requires Normal(ts) && ts != []
    ensures Normal(ts[..|ts| - 1])
  {
    var init := ts[..|ts| - 1];
    assert forall i | 0 <= i < |init| :: init[i] == ts[i];
  }

  /** A normal sequence is left as it is. */
  lemma CoalesceOfNormal(ts: seq<Token>)
    requires Normal(ts)
    ensures Coalesce(ts) == ts
  {
    FoldOfNormal(ts);
    if ts != [] && ts[|ts| - 1].Text? {
      assert ts[..|ts| - 1] + [ts[|ts| - 1]] == ts;
    }
  }

  /** Collapsing twice is collapsing once. */
  lemma CoalesceIdempotent(ts: seq<Token>)
    ensures Coalesce(Coalesce(ts)) == Coalesce(ts)
  {
    CoalesceNormal(ts);
    CoalesceOfNormal(Coalesce(ts));
  }

  /** `collapse` */
  method Collapse(ts: seq<Token>) returns (r: seq<Token>)
    ensures r == Coalesce(ts)
  {
    var merged: seq<Token> := [];
    var left: Bytes := [];
    for i := 0 to |ts|
      invariant Pending(merged, left) == Fold(ts[..i])
    {
      assert ts[..i + 1][..i] == ts[..i];
      match ts[i]
      case Text(a) =>
        left := left + a;
      case Markup(b) =>
        if |left| > 0 {
          merged := merged + [Text(left)];
          left := [];
        }
        merged := merged + [Markup(b)];
    }
    assert ts[..|ts|] == ts;
    if |left| > 0 {
      merged := merged + [Text(left)];
    }
    r := merged;
  }

  // ------------------------------------------------------------- tablumps

  /** `tablumps`: `many0!(tok)`, then `collapse`. */
  function Tablumps(s: Bytes): (r: IResult<seq<Token>>)
    ensures !r.Error?
    ensures r.Done? ==> r.rest == [] && Source(r.value) == s && Normal(r.value)
  {
    match Tokens(s)
    case Done(rest, ts) =>
      CoalesceSource(ts);
      CoalesceNormal(ts);
      Done(rest, Coalesce(ts))
    case Error => Error
    case Incomplete => Incomplete
  }

  /** The token sequences that `tablumps` gives back unchanged from their own source. */
  predicate Lexable(ts: seq<Token>) {
    Normal(ts) &&
    forall i | 0 <= i < |ts| ::
      match ts[i]
      case Text(b) => All(b, NotAmp)
      case Markup(l) => ValidLump(l)
  }

  lemma TokOfText(b: Bytes, rest: Bytes)
    requires b != [] && All(b, NotAmp) && (rest == [] || rest[0] == AMP)
    ensures Tok(b + rest) == Done(rest, Text(b))
  {
    if rest == [] {
      assert b + rest == b;
      TakeWhile1All(b, NotAmp);
    } else {
      TakeWhile1Split(b, rest, NotAmp);
    }
  }

  lemma TokOfLump(l: Tablump, rest: Bytes)
    requires ValidLump(l)
    ensures Tok(LumpThen(l, rest)) == Done(rest, Markup(l))
  {
    LumpRoundTrip(l, rest);
  }

  lemma {:induction false} TokensOfSource(ts: seq<Token>)
    requires Lexable(ts)
    ensures Tokens(Source(ts)) == Done([], ts)
    decreases |ts|
  {
    if ts != [] {
      var rest := Source(ts[1..]);
      assert Lexable(ts[1..]) by {
        assert forall i | 0 <= i < |ts| - 1 :: ts[1..][i] == ts[i + 1];
      }
      TokensOfSource(ts[1..]);
      assert Tok(Source(ts)) == Done(rest, ts[0]) by {
        match ts[0]
        case Text(b) =>
          assert rest != [] ==> rest[0] == AMP by {
            if ts[1..] != [] {
              assert ts[1..][0] == ts[1] && ts[1].Markup?;
            }
          }
          TokOfText(b, rest);
        case Markup(l) =>
          TokOfLump(l, rest);
      }
      HeadTail(ts);
    }
  }

  /** A normal token sequence with `&`-free literals and well-formed tags is what `tablumps` makes of its source. */
  lemma TablumpsRoundTrip(ts: seq<Token>)
    requires Lexable(ts)
    ensures Tablumps(Source(ts)) == Done([], ts)
  {
    TokensOfSource(ts);
    CoalesceOfNormal(ts);
  }

  // --------------------------------------------------------------- render

  /** Argument `i` of a tag; `lump` always supplies as many as the kind takes. */
  function Nth(args: seq<Bytes>, i: nat): Bytes {
    if i < |args| then args[i] else []
  }

  /** `Tablump::as_string`; bytes become the characters with the same codes. */
  function AsString(l: Tablump): string {
    match l
    case Link(a, None) => a
    case Link(a, Some(b)) => a + " (" + b + ")"
    case Lump(k, x) =>
      match k
      case A => "<a href=\"" + Nth(x, 0) + "\" title=\"" + Nth(x, 1) + "\">"
      case CloseA => "</a>"
      case Abbr => "<abbr title=\"" + Nth(x, 0) + "\">"
      case CloseAbbr => "</abbr>"
      case Acro => "<acronym title=\"" + Nth(x, 0) + "\">"
      case CloseAcro => "</acronym>"
      case Avatar => ":icon" + Nth(x, 0) + ":"
      case B => "<b>"                 case CloseB => "</b>"
      case Bcode => "<bcode>"         case CloseBcode => "</bcode>"
      case Br => "<br/>"
      case Code => "<code>"           case CloseCode => "</code>"
      case Dev => ":dev" + Nth(x, 1) + ":"
      case Embed => "<embed src=\"" + Nth(x, 0) + "\">"
      case CloseEmbed => "</embed>"
      case Emote => Nth(x, 0)
      case I => "<i>"                 case CloseI => "</i>"
      case Iframe => "<iframe src=\"" + Nth(x, 0) + "\">"
      case CloseIframe => "</iframe>"
      case Img => "<img src=\"" + Nth(x, 0) + "\" />"
      case Li => "<li>"               case CloseLi => "</li>"
      case Ol => "<ol>"               case CloseOl => "</ol>"
      case P => "<p>"                 case CloseP => "</p>"
      case S => "<s>"                 case CloseS => "</s>"
      case Sub => "<sub>"             case CloseSub => "</sub>"
      case Sup => "<sup>"             case CloseSup => "</sup>"
      case Thumb => ":thumb" + Nth(x, 0) + ":"
      case U => "<u>"                 case CloseU => "</u>"
      case Ul => "<ul>"               case CloseUl => "</ul>"
  }

  /** Every closer `&/x\t` takes no argument and renders as `</x>`, except that `&/acro\t` renders as `</acronym>`. */
  lemma ClosersAsHtml(k: Kind)
    requires IsCloser(k) && k != CloseAcro
    ensures Arity(k) == 0 && AsString(Lump(k, [])) == "<" + Body(Plain(k)) + ">"
  {}

  /** Every opener that takes no argument renders as `<x>`, except that `&br\t` renders as `<br/>`. */
  lemma BareOpenersAsHtml(k: Kind)
    requires !IsCloser(k) && Arity(k) == 0 && k != Br
    ensures AsString(Lump(k, [])) == "<" + Body(Plain(k)) + ">"
  {}

  /** The text of one token: a literal entity-decoded, or kept raw where decoding fails; a tag through `as_string`. */
  function TokenText(t: Token, decode: string -> Option<string>): string {
    match t
    case Text(b) => (match decode(b) case Some(d) => d case None => b)
    case Markup(l) => AsString(l)
  }

  /** The per-token text of `render` for a given entity decoder. */
  function TokenRender(decode: string -> Option<string>): Token -> string {
    t => TokenText(t, decode)
  }

  /** The text `render` builds: the texts of the tokens, in order. */
  function Rendered(ts: seq<Token>, text: Token -> string): string {
    if ts == [] then [] else Rendered(ts[..|ts| - 1], text) + text(ts[|ts| - 1])
  }

  /** Rendering is token by token: the text of two sequences side by side is their texts side by side. */
  lemma {:induction false} RenderedAppend(a: seq<Token>, b: seq<Token>, text: Token -> string)
    ensures Rendered(a + b, text) == Rendered(a, text) + Rendered(b, text)
    decreases |b|
  {
    if b == [] {
      assert a + b == a;
    } else {
      var init, last := b[..|b| - 1], text(b[|b| - 1]);
      assert Rendered(a + b, text) == Rendered(a + init, text) + last by {
        assert (a + b)[..|a + b| - 1] == a + init;
      }
      RenderedAppend(a, init, text);
      var x, y := Rendered(a, text), Rendered(init, text);
      assert (x + y) + last == x + (y + last);
    }
  }

  lemma RenderedSnoc(ts: seq<Token>, t: Token, text: Token -> string)
    ensures Rendered(ts + [t], text) == Rendered(ts, text) + text(t)
  {
    assert (ts + [t])[..|ts|] == ts;
  }

  /** `render`; the HTML entity decoder is a parameter that returns None where decoding fails. */
  method Render(ts: seq<Token>, decode: string -> Option<string>) returns (res: string)
    ensures res == Rendered(ts, TokenRender(decode))
  {
    res := [];
    for i := 0 to |ts|
      invariant res == Rendered(ts[..i], TokenRender(decode))
    {
      assert ts[..i + 1][..i] == ts[..i];
      match ts[i]
      case Text(s) =>
        match decode(s) {
          case Some(s') => res := res + s';
          case None => res := res + s;
        }
      case Markup(l) =>
        res := res + AsString(l);
    }
    assert ts[..|ts|] == ts;
  }

  // -------------------------------------------------------------- example

  /** The bold example: `plain &b\ttext&/b\tmore`, token by token. */
  function BoldExample(): seq<Token> {
    [Text("plain "), Markup(Lump(B, [])), Text("text"), Markup(Lump(CloseB, [])), Text("more")]
  }

  lemma BoldExampleSource()
    ensures Source(BoldExample()) == "plain " + ("&b\t" + ("text" + ("&/b\t" + "more")))
  {
    var ts := BoldExample();
    assert Source(ts[4..]) == "more" by {
      assert ts[4..] == [Text("more")];
    }
    assert Source(ts[3..]) == "&/b\t" + "more" by {
      assert ts[3..][1..] == ts[4..];
      assert TagLiteral(Plain(CloseB)) == "&/b\t";
    }
    assert Source(ts[2..]) == "text" + ("&/b\t" + "more") by {
      assert ts[2..][1..] == ts[3..];
    }
    assert Source(ts[1..]) == "&b\t" + ("text" + ("&/b\t" + "more")) by {
      assert ts[1..][1..] == ts[2..];
      assert TagLiteral(Plain(B)) == "&b\t";
    }
    assert ts[1..] == ts[1..];
  }

  /** The bold example reads as literal, bold tag, literal, closing tag, literal. */
  lemma BoldExampleParse()
    ensures Tablumps("plain " + ("&b\t" + ("text" + ("&/b\t" + "more")))) == Done([], BoldExample())
  {
    var ts := BoldExample();
    assert Lexable(ts) by {
      assert forall i | 0 <= i < |ts| :: ts[i].Text? ==> ts[i].bytes != [] && All(ts[i].bytes, NotAmp);
    }
    BoldExampleSource();
    TablumpsRoundTrip(ts);
  }

  lemma RenderedFive(t1: Token, t2: Token, t3: Token, t4: Token, t5: Token, text: Token -> string)
    ensures Rendered([t1, t2, t3, t4, t5], text)
         == text(t1) + (text(t2) + (text(t3) + (text(t4) + text(t5))))
  {
    var r1, r2, r3 := text(t1), text(t2), text(t3);
    var r4, r5 := text(t4), text(t5);
    assert Rendered([t1], text) == r1 by {
      RenderedSnoc([], t1, text);
      assert [] + [t1] == [t1];
    }
    assert Rendered([t1, t2], text) == r1 + r2 by {
      RenderedSnoc([t1], t2, text);
      assert [t1] + [t2] == [t1, t2];
    }
    assert Rendered([t1, t2, t3], text) == r1 + (r2 + r3) by {
      RenderedSnoc([t1, t2], t3, text);
      assert [t1, t2] + [t3] == [t1, t2, t3];
    }
    assert Rendered([t1, t2, t3, t4], text) == r1 + (r2 + (r3 + r4)) by {
      RenderedSnoc([t1, t2, t3], t4, text);
      assert [t1, t2, t3] + [t4] == [t1, t2, t3, t4];
    }
    RenderedSnoc([t1, t2, t3, t4], t5, text);
    assert [t1, t2, t3, t4] + [t5] == [t1, t2, t3, t4, t5];
  }

  /** With its three literals, which hold no entity, decoded as themselves, the bold example renders as `plain <b>text</b>more`. */
  lemma BoldExampleRender(decode: string -> Option<string>)
    requires decode("plain ") == Some("plain ") && decode("text") == Some("text") && decode("more") == Some("more")
    ensures Rendered(BoldExample(), TokenRender(decode)) == "plain " + ("<b>" + ("text" + ("</b>" + "more")))
  {
    var t1, t2, t3 := Text("plain "), Markup(Lump(B, [])), Text("text");
    var t4, t5 := Markup(Lump(CloseB, [])), Text("more");
    RenderedFive(t1, t2, t3, t4, t5, TokenRender(decode));
    assert TokenText(t2, decode) == "<b>" && TokenText(t4, decode) == "</b>";
  }
}
