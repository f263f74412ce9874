/**
 * The grammar of a terminal byte stream as the title stripper reads it, and the stripped stream.
 *
 * A stream is a sequence of tokens and the beginning of an unfinished one.  Every byte stream has
 * exactly one such reading (PrintParse, ParsePrint); stripping is defined on the reading.
 */
module OscTokens {
  import opened Octets
  import opened Sequences

  const BEL: byte := 0x07
  const BRACKET: byte := 0x5d
  const SEMICOLON: byte := 0x3b
  const BACKSLASH: byte := 0x5c

  predicate IsDigit(b: byte) {
    0x30 <= b <= 0x39
  }

  /** A piece of an OSC body: a byte, or ESC with a byte that does not make it the terminator. */
  datatype Item = Raw(b: byte) | Escaped(b: byte)

  /** Lists that grow at the end, as a stream does. */
  datatype List<T> = Nil | Snoc(front: List<T>, last: T)

  datatype Ender = Bel | StringTerminator

  datatype Token =
    | Plain(b: byte)
    | EscPair(b: byte)
    | CodeOnly(code: seq<byte>)
    | CodeBroken(code: seq<byte>, b: byte)
    | Osc(code: seq<byte>, body: List<Item>, ender: Ender)

  datatype Rest =
    | Nothing
    | AfterEsc
    | InCode(code: seq<byte>)
    | InBody(code: seq<byte>, body: List<Item>, esc: bool)

  datatype Reading = Reading(tokens: List<Token>, rest: Rest)

  const FRESH: Reading := Reading(Nil, Nothing)

  // ---- well-formed readings ----

  predicate AllDigits(code: seq<byte>) {
    forall i :: 0 <= i < |code| ==> IsDigit(code[i])
  }

  predicate BodyOk(body: List<Item>) {
    match body
    case Nil => true
    case Snoc(front, Raw(b)) => BodyOk(front) && b != BEL && b != ESC
    case Snoc(front, Escaped(b)) => BodyOk(front) && b != BACKSLASH
  }

  predicate TokenOk(t: Token) {
    match t
    case Plain(b) => b != ESC
    case EscPair(b) => b != BRACKET
    case CodeOnly(code) => AllDigits(code)
    case CodeBroken(code, b) => AllDigits(code) && b != SEMICOLON && b != BEL && !IsDigit(b)
    case Osc(code, body, _) => AllDigits(code) && BodyOk(body)
  }

  predicate TokensOk(ts: List<Token>) {
    ts.Nil? || (TokensOk(ts.front) && TokenOk(ts.last))
  }

  predicate RestOk(q: Rest) {
    match q
    case InCode(code) => AllDigits(code)
    case InBody(code, body, _) => AllDigits(code) && BodyOk(body)
    case _ => true
  }

  predicate ReadingOk(p: Reading) {
    TokensOk(p.tokens) && RestOk(p.rest)
  }

  // ---- printing ----

  function PrintItem(x: Item): seq<byte> {
    if x.Raw? then [x.b] else [ESC, x.b]
  }

  function PrintItems(body: List<Item>): seq<byte> {
    if body.Nil? then [] else PrintItems(body.front) + PrintItem(body.last)
  }

  function Opening(code: seq<byte>): seq<byte> {
    [ESC, BRACKET] + code
  }

  function PrintToken(t: Token): seq<byte> {
    match t
    case Plain(b) => [b]
    case EscPair(b) => [ESC, b]
    case CodeOnly(code) => Opening(code) + [BEL]
    case CodeBroken(code, b) => Opening(code) + [b]
    case Osc(code, body, ender) =>
      Opening(code) + [SEMICOLON] + PrintItems(body) + if ender.Bel? then [BEL] else [ESC, BACKSLASH]
  }

  function PrintTokens(ts: List<Token>): seq<byte> {
    if ts.Nil? then [] else PrintTokens(ts.front) + PrintToken(ts.last)
  }

  function PrintRest(q: Rest): seq<byte> {
    match q
    case Nothing => []
    case AfterEsc => [ESC]
    case InCode(code) => Opening(code)
    case InBody(code, body, esc) => Opening(code) + [SEMICOLON] + PrintItems(body) + if esc then [ESC] else []
  }

  function Print(p: Reading): seq<byte> {
    PrintTokens(p.tokens) + PrintRest(p.rest)
  }

  // ---- reading ----

  function Completed(p: Reading, t: Token): Reading {
    Reading(Snoc(p.tokens, t), Nothing)
  }

  function Feed(p: Reading, b: byte): Reading {
    match p.rest
    case Nothing => if b == ESC then p.(rest := AfterEsc) else Completed(p, Plain(b))
    case AfterEsc => if b == BRACKET then p.(rest := InCode([])) else Completed(p, EscPair(b))
    case InCode(code) =>
      if b == SEMICOLON then p.(rest := InBody(code, Nil, false))
      else if b == BEL then Completed(p, CodeOnly(code))
      else if IsDigit(b) then p.(rest := InCode(code + [b]))
      else Completed(p, CodeBroken(code, b))
    case InBody(code, body, false) =>
      if b == BEL then Completed(p, Osc(code, body, Bel))
      else if b == ESC then p.(rest := InBody(code, body, true))
      else p.(rest := InBody(code, Snoc(body, Raw(b)), false))
    case InBody(code, body, true) =>
      if b == BACKSLASH then Completed(p, Osc(code, body, StringTerminator))
      else p.(rest := InBody(code, Snoc(body, Escaped(b)), false))
  }

  function FeedAll(p: Reading, s: seq<byte>): Reading
    decreases |s|
  {
    if s == [] then p else FeedAll(Feed(p, s[0]), s[1..])
  }

  function Parse(s: seq<byte>): Reading {
    FeedAll(FRESH, s)
  }

  lemma {:induction false} FeedAllConcat(p: Reading, a: seq<byte>, b: seq<byte>)
    ensures FeedAll(p, a + b) == FeedAll(FeedAll(p, a), b)
    decreases |a|
  {
    if a == [] {
      assert a + b == b;
    } else {
      assert (a + b)[1..] == a[1..] + b;
      FeedAllConcat(Feed(p, a[0]), a[1..], b);
    }
  }

  /** What follows the finished tokens once `b` has been read after `q`: a token, or a longer rest. */
  datatype Tail = Finished(t: Token) | Unfinished(q: Rest)

  function TailOf(q: Rest, b: byte): Tail {
    var p := Feed(Reading(Nil, q), b);
    if p.tokens.Nil? then Unfinished(p.rest) else Finished(p.tokens.last)
  }

  function PrintTail(x: Tail): seq<byte> {
    if x.Finished? then PrintToken(x.t) else PrintRest(x.q)
  }

  lemma FeedTail(p: Reading, b: byte)
    ensures Feed(p, b) ==
      match TailOf(p.rest, b)
      case Finished(t) => Reading(Snoc(p.tokens, t), Nothing)
      case Unfinished(q) => Reading(p.tokens, q)
  {
  }

  lemma TailPrints(q: Rest, b: byte)
    requires RestOk(q)
    ensures TailOf(q, b).Finished? ==> TokenOk(TailOf(q, b).t)
    ensures TailOf(q, b).Unfinished? ==> RestOk(TailOf(q, b).q)
    ensures PrintTail(TailOf(q, b)) == PrintRest(q) + [b]
  {
    match q
    case Nothing => Unit([b]);
    case AfterEsc => assert [ESC] + [b] == [ESC, b];
    case InCode(code) => CodePrints(code, b);
    case InBody(code, body, esc) => BodyPrints(code, body, esc, b);
  }

  lemma CodePrints(code: seq<byte>, b: byte)
    requires AllDigits(code)
    ensures TailOf(InCode(code), b).Finished? ==> TokenOk(TailOf(InCode(code), b).t)
    ensures TailOf(InCode(code), b).Unfinished? ==> RestOk(TailOf(InCode(code), b).q)
    ensures PrintTail(TailOf(InCode(code), b)) == Opening(code) + [b]
  {
    Assoc([ESC, BRACKET], code, [b]);
    Unit(Opening(code) + [b]);
  }

  lemma BodyPrints(code: seq<byte>, body: List<Item>, esc: bool, b: byte)
    ensures PrintTail(TailOf(InBody(code, body, esc), b)) == PrintRest(InBody(code, body, esc)) + [b]
  {
    var opening, items := Opening(code) + [SEMICOLON], PrintItems(body);
    if esc {
      Assoc(opening + items, [ESC], [b]);
      assert [ESC] + [b] == [ESC, b];
      if b != BACKSLASH {
        EscapedPrints(opening, items, b);
      }
    } else {
      Unit(opening + items);
      if b != BEL && b != ESC {
        RawPrints(opening, items, b);
      }
    }
  }

  lemma EscapedPrints(opening: seq<byte>, items: seq<byte>, b: byte)
    ensures opening + (items + [ESC, b]) + [] == opening + items + [ESC, b]
  {
    Assoc(opening, items, [ESC, b]);
  }

  lemma RawPrints(opening: seq<byte>, items: seq<byte>, b: byte)
    ensures opening + (items + [b]) + [] == opening + items + [b]
  {
    Assoc(opening, items, [b]);
  }

  lemma FeedPrints(p: Reading, b: byte)
    requires ReadingOk(p)
    ensures ReadingOk(Feed(p, b))
    ensures Print(Feed(p, b)) == Print(p) + [b]
  {
    FeedTail(p, b);
    TailPrints(p.rest, b);
  }

  lemma {:induction false} FeedAllPrints(p: Reading, s: seq<byte>)
    requires ReadingOk(p)
    ensures ReadingOk(FeedAll(p, s))
    ensures Print(FeedAll(p, s)) == Print(p) + s
    decreases |s|
  {
    if s != [] {
      FeedPrints(p, s[0]);
      FeedAllPrints(Feed(p, s[0]), s[1..]);
      First(Print(p), s);
    } else {
      Unit(Print(p));
    }
  }

  /** Every stream has a reading ... */
  lemma PrintParse(s: seq<byte>)
    ensures ReadingOk(Parse(s))
    ensures Print(Parse(s)) == s
  {
    FeedAllPrints(FRESH, s);
  }

  lemma FeedOne(p: Reading, a: byte)
    ensures FeedAll(p, [a]) == Feed(p, a)
  {
    assert FeedAll(Feed(p, a), [a][1..]) == Feed(p, a);
  }

  lemma FeedTwo(p: Reading, a: byte, b: byte)
    ensures FeedAll(p, [a, b]) == Feed(Feed(p, a), b)
  {
    assert [a, b][1..] == [b];
    FeedOne(Feed(p, a), b);
  }

  lemma {:induction false} FeedDigits(ts: List<Token>, acc: seq<byte>, code: seq<byte>)
    requires AllDigits(code)
    ensures FeedAll(Reading(ts, InCode(acc)), code) == Reading(ts, InCode(acc + code))
    decreases |code|
  {
    if code == [] {
      assert acc + code == acc;
    } else {
      FeedDigits(ts, acc + [code[0]], code[1..]);
      assert acc + [code[0]] + code[1..] == acc + code;
    }
  }

  lemma {:induction false} FeedItems(ts: List<Token>, code: seq<byte>, body: List<Item>)
    requires BodyOk(body)
    ensures FeedAll(Reading(ts, InBody(code, Nil, false)), PrintItems(body)) == Reading(ts, InBody(code, body, false))
  {
    match body
    case Nil =>
    case Snoc(front, last) =>
      var p := Reading(ts, InBody(code, front, false));
      FeedItems(ts, code, front);
      FeedAllConcat(Reading(ts, InBody(code, Nil, false)), PrintItems(front), PrintItem(last));
      if last.Raw? {
        FeedOne(p, last.b);
      } else {
        FeedTwo(p, ESC, last.b);
      }
  }

  lemma FeedOpening(ts: List<Token>, code: seq<byte>, after: seq<byte>)
    requires AllDigits(code)
    ensures FeedAll(Reading(ts, Nothing), Opening(code) + after) == FeedAll(Reading(ts, InCode(code)), after)
  {
    FeedAllConcat(Reading(ts, Nothing), Opening(code), after);
    FeedAllConcat(Reading(ts, Nothing), [ESC, BRACKET], code);
    FeedTwo(Reading(ts, Nothing), ESC, BRACKET);
    FeedDigits(ts, [], code);
    assert [] + code == code;
  }

  lemma FeedBody(ts: List<Token>, code: seq<byte>, body: List<Item>, after: seq<byte>)
    requires AllDigits(code) && BodyOk(body)
    ensures FeedAll(Reading(ts, Nothing), Opening(code) + [SEMICOLON] + PrintItems(body) + after)
      == FeedAll(Reading(ts, InBody(code, body, false)), after)
  {
    var start := Reading(ts, Nothing);
    assert Opening(code) + [SEMICOLON] + PrintItems(body) + after
      == Opening(code) + ([SEMICOLON] + (PrintItems(body) + after));
    FeedOpening(ts, code, [SEMICOLON] + (PrintItems(body) + after));
    FeedAllConcat(Reading(ts, InCode(code)), [SEMICOLON], PrintItems(body) + after);
    FeedOne(Reading(ts, InCode(code)), SEMICOLON);
    FeedAllConcat(Reading(ts, InBody(code, Nil, false)), PrintItems(body), after);
    FeedItems(ts, code, body);
  }

  lemma FeedToken(ts: List<Token>, t: Token)
    requires TokenOk(t)
    ensures FeedAll(Reading(ts, Nothing), PrintToken(t)) == Reading(Snoc(ts, t), Nothing)
  {
    match t
    case Plain(b) =>
      FeedOne(Reading(ts, Nothing), b);
    case EscPair(b) =>
      FeedTwo(Reading(ts, Nothing), ESC, b);
    case CodeOnly(code) =>
      FeedOpening(ts, code, [BEL]);
      FeedOne(Reading(ts, InCode(code)), BEL);
    case CodeBroken(code, b) =>
      FeedOpening(ts, code, [b]);
      FeedOne(Reading(ts, InCode(code)), b);
    case Osc(code, body, ender) =>
      FeedBody(ts, code, body, if ender.Bel? then [BEL] else [ESC, BACKSLASH]);
      FeedOne(Reading(ts, InBody(code, body, false)), BEL);
      FeedTwo(Reading(ts, InBody(code, body, false)), ESC, BACKSLASH);
  }

  lemma {:induction false} FeedTokens(ts: List<Token>)
    requires TokensOk(ts)
    ensures FeedAll(FRESH, PrintTokens(ts)) == Reading(ts, Nothing)
  {
    match ts
    case Nil =>
    case Snoc(front, last) =>
      FeedTokens(front);
      FeedAllConcat(FRESH, PrintTokens(front), PrintToken(last));
      FeedToken(front, last);
  }

  /** ... and only one. */
  lemma ParsePrint(p: Reading)
    requires ReadingOk(p)
    ensures Parse(Print(p)) == p
  {
    FeedTokens(p.tokens);
    FeedAllConcat(FRESH, PrintTokens(p.tokens), PrintRest(p.rest));
    match p.rest
    case Nothing =>
    case AfterEsc =>
      FeedOne(Reading(p.tokens, Nothing), ESC);
    case InCode(code) =>
      FeedOpening(p.tokens, code, []);
      assert Opening(code) + [] == Opening(code);
    case InBody(code, body, esc) =>
      FeedBody(p.tokens, code, body, if esc then [ESC] else []);
      FeedOne(Reading(p.tokens, InBody(code, body, false)), ESC);
  }

  // ---- stripping ----

  predicate IsTitleCode(code: seq<byte>) {
    code == [0x30] || code == [0x32] || code == [0x31, 0x30] || code == [0x31, 0x31] || code == [0x31, 0x32]
  }

  predicate IsTitle(t: Token) {
    (t.CodeOnly? || t.Osc?) && IsTitleCode(t.code)
  }

  function Keep(ts: List<Token>): List<Token> {
    match ts
    case Nil => Nil
    case Snoc(front, last) => if IsTitle(last) then Keep(front) else Snoc(Keep(front), last)
  }

  predicate NoTitles(ts: List<Token>) {
    ts.Nil? || (NoTitles(ts.front) && !IsTitle(ts.last))
  }

  /** The unfinished token as far as it has been passed on. */
  function KeepRest(q: Rest): Rest {
    if q.InBody? && !IsTitleCode(q.code) then q.(esc := false) else Nothing
  }

  function KeepReading(p: Reading): Reading {
    Reading(Keep(p.tokens), KeepRest(p.rest))
  }

  /** The bytes of the unfinished token that wait for its next byte (all of it inside a title). */
  function HeldRest(q: Rest): seq<byte> {
    match q
    case InBody(code, _, esc) => if IsTitleCode(code) then PrintRest(q) else if esc then [ESC] else []
    case _ => PrintRest(q)
  }

  /** The stripped stream: the tokens that are no titles, and what is known not to be one. */
  function Stripped(s: seq<byte>): seq<byte> {
    Print(KeepReading(Parse(s)))
  }

  lemma KeepSound(ts: List<Token>)
    ensures NoTitles(Keep(ts))
    ensures TokensOk(ts) ==> TokensOk(Keep(ts))
  {
  }

  lemma KeepIdempotent(ts: List<Token>)
    requires NoTitles(ts)
    ensures Keep(ts) == ts
  {
  }

  /** The tokens of the stripped stream are the non-title tokens of the stream: no title survives. */
  lemma StrippedTokens(s: seq<byte>)
    ensures Parse(Stripped(s)) == KeepReading(Parse(s))
    ensures NoTitles(Parse(Stripped(s)).tokens)
  {
    PrintParse(s);
    KeepSound(Parse(s).tokens);
    ParsePrint(KeepReading(Parse(s)));
  }

  /** Removing a title never joins its neighbours into a new strippable sequence. */
  lemma StrippedIdempotent(s: seq<byte>)
    ensures Stripped(Stripped(s)) == Stripped(s)
  {
    StrippedTokens(s);
    KeepSound(Parse(s).tokens);
    KeepIdempotent(Keep(Parse(s).tokens));
  }

  /** Nothing but titles is lost: the input is its tokens, the passed part and the held part. */
  lemma NothingElseLost(s: seq<byte>)
    ensures s == PrintTokens(Parse(s).tokens) + PrintRest(KeepRest(Parse(s).rest)) + HeldRest(Parse(s).rest)
    ensures NoTitles(Parse(s).tokens) ==> s == Stripped(s) + HeldRest(Parse(s).rest)
  {
    PrintParse(s);
    RestSplits(Parse(s).rest);
    Assoc(PrintTokens(Parse(s).tokens), PrintRest(KeepRest(Parse(s).rest)), HeldRest(Parse(s).rest));
    if NoTitles(Parse(s).tokens) {
      KeepIdempotent(Parse(s).tokens);
    }
  }

  lemma RestSplits(q: Rest)
    ensures PrintRest(q) == PrintRest(KeepRest(q)) + HeldRest(q)
  {
  }

  /** What `out` must add after the part of `q` already passed on, once `b` has been read. */
  predicate Passes(q: Rest, b: byte, out: seq<byte>) {
    PrintRest(KeepRest(q)) + out ==
      match TailOf(q, b)
      case Finished(t) => if IsTitle(t) then [] else PrintToken(t)
      case Unfinished(u) => PrintRest(KeepRest(u))
  }

  lemma KeptGrows(p: Reading, b: byte, out: seq<byte>)
    requires Passes(p.rest, b, out)
    ensures Print(KeepReading(Feed(p, b))) == Print(KeepReading(p)) + out
  {
    FeedTail(p, b);
    var kept := PrintTokens(Keep(p.tokens));
    Assoc(kept, PrintRest(KeepRest(p.rest)), out);
    Unit(kept);
    if TailOf(p.rest, b).Finished? {
      Unit(kept + PrintToken(TailOf(p.rest, b).t));
    }
  }

  /** One more byte: the stripped stream grows by what turns out not to belong to a title. */
  lemma StrippedGrows(s: seq<byte>, b: byte, out: seq<byte>)
    requires Passes(Parse(s).rest, b, out)
    ensures Parse(s + [b]) == Feed(Parse(s), b)
    ensures Stripped(s + [b]) == Stripped(s) + out
  {
    FeedAllConcat(FRESH, s, [b]);
    FeedOne(Parse(s), b);
    KeptGrows(Parse(s), b, out);
  }
}
