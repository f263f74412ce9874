/**
 * Titles as raw bytes in the stripped stream.
 *
 * No title token survives stripping, but the bytes of a title can, where the grammar reads their
 * ESC as the end of something else: of a two-byte escape, of a broken code, or of an escaped item
 * in the body of an OSC that is kept.
 */
module RawTitles {
  import opened Octets
  import opened OscTokens
  import opened Sequences

  /** `x` starts with the bytes of a complete title. */
  ghost predicate StartsTitle(x: seq<byte>) {
    exists t :: TokenOk(t) && IsTitle(t) && IsPrefix(PrintToken(t), x)
  }

  ghost predicate TitleAt(u: seq<byte>, p: nat) {
    p <= |u| && StartsTitle(u[p..])
  }

  // ---- never between tokens ----

  lemma {:induction false} TokensStay(p: Reading, s: seq<byte>)
    requires NoTitles(FeedAll(p, s).tokens)
    ensures NoTitles(p.tokens)
    decreases |s|
  {
    if s != [] {
      TokensStay(Feed(p, s[0]), s[1..]);
    }
  }

  /** The bytes of a title only ever survive inside a token, never where one could begin. */
  lemma RawTitleInsideToken(s: seq<byte>, p: nat)
    requires TitleAt(Stripped(s), p)
    ensures Parse(Stripped(s)[..p]).rest != Nothing
  {
    var u := Stripped(s);
    var before := Parse(u[..p]);
    if before.rest == Nothing {
      var t :| TokenOk(t) && IsTitle(t) && IsPrefix(PrintToken(t), u[p..]);
      var rest := u[p..][|PrintToken(t)|..];
      SplitAt(u, p);
      SplitAt(u[p..], |PrintToken(t)|);
      FeedAllConcat(FRESH, u[..p], u[p..]);
      FeedAllConcat(before, PrintToken(t), rest);
      FeedToken(before.tokens, t);
      StrippedTokens(s);
      TokensStay(Reading(Snoc(before.tokens, t), Nothing), rest);
    }
  }

  // ---- where they do ----

  function PrintEnder(e: Ender): seq<byte> {
    if e.Bel? then [BEL] else [ESC, BACKSLASH]
  }

  /** The second byte of an ESC pair, or of an escaped item, is the ESC of a title; or the first is. */
  ghost predicate ItemHides(x: Item, after: seq<byte>) {
    x.Escaped? && (StartsTitle([ESC, x.b] + after) || StartsTitle([x.b] + after))
  }

  ghost predicate BodyHides(body: List<Item>, after: seq<byte>) {
    body.Snoc? && (ItemHides(body.last, after) || BodyHides(body.front, PrintItem(body.last) + after))
  }

  /** A token of one of three forms, continued by `after` to a title. */
  ghost predicate TokenHides(t: Token, after: seq<byte>) {
    match t
    case EscPair(b) => b == ESC && StartsTitle([ESC] + after)
    case CodeBroken(_, b) => b == ESC && StartsTitle([ESC] + after)
    case Osc(_, body, ender) => BodyHides(body, PrintEnder(ender) + after)
    case _ => false
  }

  ghost predicate TokensHide(ts: List<Token>, after: seq<byte>) {
    ts.Snoc? && (TokenHides(ts.last, after) || TokensHide(ts.front, PrintToken(ts.last) + after))
  }

  ghost predicate RestHides(q: Rest) {
    q.InBody? && BodyHides(q.body, [])
  }

  /** A title starts somewhere in `x`, when `after` follows. */
  ghost predicate HiddenIn(x: seq<byte>, after: seq<byte>) {
    exists i :: 0 <= i < |x| && StartsTitle(x[i..] + after)
  }

  lemma HiddenConcat(a: seq<byte>, b: seq<byte>, after: seq<byte>)
    ensures HiddenIn(a + b, after) <==> HiddenIn(a, b + after) || HiddenIn(b, after)
  {
    forall i | 0 <= i < |a| ensures (a + b)[i..] + after == a[i..] + (b + after) {
      DropWithin(a, b, i);
      Assoc(a[i..], b, after);
    }
    forall i | 0 <= i < |b| ensures (a + b)[|a| + i..] == b[i..] {
    }
    if HiddenIn(a + b, after) {
      var i :| 0 <= i < |a + b| && StartsTitle((a + b)[i..] + after);
      if i >= |a| {
        assert StartsTitle(b[i - |a|..] + after);
      }
    }
    if HiddenIn(b, after) {
      var i :| 0 <= i < |b| && StartsTitle(b[i..] + after);
      assert StartsTitle((a + b)[|a| + i..] + after);
    }
    if HiddenIn(a, b + after) {
      var i :| 0 <= i < |a| && StartsTitle(a[i..] + (b + after));
      assert StartsTitle((a + b)[i..] + after);
    }
  }

  lemma TitleOpens(x: seq<byte>)
    requires StartsTitle(x)
    ensures |x| >= 2 && x[0] == ESC && x[1] == BRACKET
  {
    var t :| TokenOk(t) && IsTitle(t) && IsPrefix(PrintToken(t), x);
    var w := PrintToken(t);
    assert w[0] == ESC && w[1] == BRACKET;
    assert x[0] == w[0] && x[1] == w[1];
  }

  lemma TitlePrints(t: Token) returns (c: byte, tail: seq<byte>)
    requires TokenOk(t) && IsTitle(t)
    ensures PrintToken(t) == Opening(t.code) + ([c] + tail) && (c == SEMICOLON || c == BEL)
  {
    if t.CodeOnly? {
      c, tail := BEL, [];
      Unit([BEL]);
    } else {
      var ender := PrintEnder(t.ender);
      c, tail := SEMICOLON, PrintItems(t.body) + ender;
      Assoc(Opening(t.code) + [SEMICOLON], PrintItems(t.body), ender);
      Assoc(Opening(t.code), [SEMICOLON], tail);
    }
  }

  /** After the opening comes the whole code of the title, and then a semicolon or the end. */
  lemma TitleCode(code: seq<byte>, b: byte, after: seq<byte>)
    requires AllDigits(code) && !IsDigit(b) && StartsTitle(Opening(code) + ([b] + after))
    ensures IsTitleCode(code) && (b == SEMICOLON || b == BEL)
  {
    var t :| TokenOk(t) && IsTitle(t) && IsPrefix(PrintToken(t), Opening(code) + ([b] + after));
    var c, tail := TitlePrints(t);
    SameCode(code, b, after, t.code, c, tail);
  }

  lemma SameCode(code: seq<byte>, b: byte, after: seq<byte>, other: seq<byte>, c: byte, tail: seq<byte>)
    requires AllDigits(code) && AllDigits(other) && !IsDigit(b) && !IsDigit(c)
    requires IsPrefix(Opening(other) + ([c] + tail), Opening(code) + ([b] + after))
    ensures code == other && b == c
  {
    var x, w := Opening(code) + ([b] + after), Opening(other) + ([c] + tail);
    assert forall i :: 0 <= i < |w| ==> x[i] == w[i];
    assert forall i :: 0 <= i < |code| ==> x[2 + i] == code[i];
    assert forall i :: 0 <= i < |other| ==> w[2 + i] == other[i];
    assert x[2 + |code|] == b && w[2 + |other|] == c;
    assert |code| == |other|;
  }

  lemma NothingHidden(x: seq<byte>, after: seq<byte>)
    requires ESC !in x
    ensures !HiddenIn(x, after)
  {
    forall i | 0 <= i < |x| ensures !StartsTitle(x[i..] + after) {
      assert (x[i..] + after)[0] == x[i];
      if StartsTitle(x[i..] + after) {
        TitleOpens(x[i..] + after);
      }
    }
  }

  lemma OneHidden(b: byte, after: seq<byte>)
    ensures HiddenIn([b], after) <==> b == ESC && StartsTitle([b] + after)
  {
    assert [b][0..] == [b];
    if StartsTitle([b] + after) {
      TitleOpens([b] + after);
      assert ([b] + after)[0] == b;
    }
  }

  lemma PairHidden(b: byte, after: seq<byte>)
    ensures HiddenIn([ESC, b], after) <==> StartsTitle([ESC, b] + after) || StartsTitle([b] + after)
    ensures StartsTitle([ESC, b] + after) ==> b == BRACKET
    ensures StartsTitle([b] + after) ==> b == ESC
  {
    assert [ESC, b][0..] == [ESC, b] && [ESC, b][1..] == [b];
    if StartsTitle([ESC, b] + after) {
      TitleOpens([ESC, b] + after);
    }
    if StartsTitle([b] + after) {
      TitleOpens([b] + after);
    }
    if HiddenIn([ESC, b], after) {
      var i :| 0 <= i < |[ESC, b]| && StartsTitle([ESC, b][i..] + after);
    }
  }

  lemma OpeningSplits(code: seq<byte>)
    requires AllDigits(code)
    ensures Opening(code) == [ESC] + ([BRACKET] + code) && ESC !in [BRACKET] + code
  {
  }

  lemma OpeningHidden(code: seq<byte>, b: byte, after: seq<byte>)
    requires AllDigits(code) && !IsDigit(b) && !(IsTitleCode(code) && (b == SEMICOLON || b == BEL))
    ensures !HiddenIn(Opening(code), [b] + after)
  {
    var later := [BRACKET] + code;
    OpeningSplits(code);
    HiddenConcat([ESC], later, [b] + after);
    NothingHidden(later, [b] + after);
    OneHidden(ESC, later + ([b] + after));
    Assoc([ESC], later, [b] + after);
    if StartsTitle(Opening(code) + ([b] + after)) {
      TitleCode(code, b, after);
    }
  }

  lemma ItemHidden(x: Item, after: seq<byte>)
    requires x.Raw? ==> x.b != ESC
    ensures HiddenIn(PrintItem(x), after) <==> ItemHides(x, after)
  {
    if x.Raw? {
      NothingHidden([x.b], after);
    } else {
      PairHidden(x.b, after);
    }
  }

  lemma {:induction false} BodyHidden(body: List<Item>, after: seq<byte>)
    requires BodyOk(body)
    ensures HiddenIn(PrintItems(body), after) <==> BodyHides(body, after)
  {
    match body
    case Nil =>
    case Snoc(front, last) =>
      HiddenConcat(PrintItems(front), PrintItem(last), after);
      BodyHidden(front, PrintItem(last) + after);
      ItemHidden(last, after);
  }

  /** The opening and body of an OSC that is no title. */
  lemma OscHidden(code: seq<byte>, body: List<Item>, after: seq<byte>)
    requires AllDigits(code) && BodyOk(body) && !IsTitleCode(code)
    ensures HiddenIn(Opening(code) + [SEMICOLON] + PrintItems(body), after) <==> BodyHides(body, after)
  {
    var items := PrintItems(body);
    HiddenConcat(Opening(code) + [SEMICOLON], items, after);
    HiddenConcat(Opening(code), [SEMICOLON], items + after);
    OpeningHidden(code, SEMICOLON, items + after);
    NothingHidden([SEMICOLON], items + after);
    BodyHidden(body, after);
  }

  lemma EnderHidden(e: Ender, after: seq<byte>)
    ensures !HiddenIn(PrintEnder(e), after)
  {
    if e.Bel? {
      NothingHidden([BEL], after);
    } else {
      PairHidden(BACKSLASH, after);
    }
  }

  lemma TokenHidden(t: Token, after: seq<byte>)
    requires TokenOk(t) && !IsTitle(t)
    ensures HiddenIn(PrintToken(t), after) <==> TokenHides(t, after)
  {
    match t
    case Plain(b) => NothingHidden([b], after);
    case EscPair(b) => PairHidden(b, after);
    case CodeOnly(code) =>
      HiddenConcat(Opening(code), [BEL], after);
      OpeningHidden(code, BEL, after);
      NothingHidden([BEL], after);
    case CodeBroken(code, b) =>
      HiddenConcat(Opening(code), [b], after);
      OpeningHidden(code, b, after);
      OneHidden(b, after);
    case Osc(code, body, ender) =>
      HiddenConcat(Opening(code) + [SEMICOLON] + PrintItems(body), PrintEnder(ender), after);
      OscHidden(code, body, PrintEnder(ender) + after);
      EnderHidden(ender, after);
  }

  lemma {:induction false} TokensHidden(ts: List<Token>, after: seq<byte>)
    requires TokensOk(ts) && NoTitles(ts)
    ensures HiddenIn(PrintTokens(ts), after) <==> TokensHide(ts, after)
  {
    match ts
    case Nil =>
    case Snoc(front, last) =>
      HiddenConcat(PrintTokens(front), PrintToken(last), after);
      TokensHidden(front, PrintToken(last) + after);
      TokenHidden(last, after);
  }

  lemma KeptRestHidden(q: Rest)
    requires RestOk(q)
    ensures HiddenIn(PrintRest(KeepRest(q)), []) <==> RestHides(KeepRest(q))
  {
    var kept := KeepRest(q);
    if kept.InBody? {
      OscHidden(kept.code, kept.body, []);
      Unit(Opening(kept.code) + [SEMICOLON] + PrintItems(kept.body));
    }
  }

  /**
   * The bytes of a title appear in the stripped stream exactly when one of its tokens, an ESC pair
   * or a broken code that ends in ESC, or an OSC with an escaped item in its body, is continued to
   * a title by what follows (or the body of its unfinished OSC has such an item).
   */
  lemma RawTitleExactly(s: seq<byte>)
    ensures var kept := KeepReading(Parse(s));
      (exists p :: TitleAt(Stripped(s), p)) <==>
      TokensHide(kept.tokens, PrintRest(kept.rest)) || RestHides(kept.rest)
  {
    var u, kept := Stripped(s), KeepReading(Parse(s));
    PrintParse(s);
    KeepSound(Parse(s).tokens);
    HiddenAnywhere(u);
    HiddenConcat(PrintTokens(kept.tokens), PrintRest(kept.rest), []);
    Unit(PrintRest(kept.rest));
    TokensHidden(kept.tokens, PrintRest(kept.rest));
    KeptRestHidden(Parse(s).rest);
  }

  lemma HiddenAnywhere(u: seq<byte>)
    ensures (exists p :: TitleAt(u, p)) <==> HiddenIn(u, [])
  {
    forall p: nat | p <= |u| ensures u[p..] + [] == u[p..] {
    }
    if exists p :: TitleAt(u, p) {
      var p: nat :| TitleAt(u, p);
      TitleOpens(u[p..]);
      assert StartsTitle(u[p..] + []);
    }
    if HiddenIn(u, []) {
      var i :| 0 <= i < |u| && StartsTitle(u[i..] + []);
      assert TitleAt(u, i);
    }
  }

  lemma KeptAsItIs(ts: List<Token>)
    requires TokensOk(ts) && NoTitles(ts)
    ensures Stripped(PrintTokens(ts)) == PrintTokens(ts)
  {
    Unit(PrintTokens(ts));
    ParsePrint(Reading(ts, Nothing));
    KeepIdempotent(ts);
  }

  /** The bytes of a title after its ESC, each a token of its own. */
  function Spelled(ts: List<Token>): List<Token> {
    Snoc(Snoc(Snoc(Snoc(Snoc(ts, Plain(BRACKET)), Plain(0x30)), Plain(SEMICOLON)), Plain(0x41)), Plain(BEL))
  }

  lemma SpelledPrints(ts: List<Token>)
    requires TokensOk(ts) && NoTitles(ts)
    ensures TokensOk(Spelled(ts)) && NoTitles(Spelled(ts))
    ensures PrintTokens(Spelled(ts)) == PrintTokens(ts) + [BRACKET, 0x30, SEMICOLON, 0x41, BEL]
  {
    var one := PlainAfter(ts, BRACKET);
    var two := PlainAfter(one, 0x30);
    var three := PlainAfter(two, SEMICOLON);
    var four := PlainAfter(three, 0x41);
    var five := PlainAfter(four, BEL);
    var p := PrintTokens(ts);
    assert p + [BRACKET] + [0x30] + [SEMICOLON] + [0x41] + [BEL] == p + [BRACKET, 0x30, SEMICOLON, 0x41, BEL];
  }

  lemma PlainAfter(ts: List<Token>, b: byte) returns (more: List<Token>)
    requires TokensOk(ts) && NoTitles(ts) && b != ESC
    ensures more == Snoc(ts, Plain(b)) && TokensOk(more) && NoTitles(more)
    ensures PrintTokens(more) == PrintTokens(ts) + [b]
  {
    more := Snoc(ts, Plain(b));
  }

  /** A title survives behind an ESC ... */
  lemma SurvivesBehindEsc()
    ensures var u := [ESC] + [ESC, BRACKET, 0x30, SEMICOLON, 0x41, BEL]; Stripped(u) == u
  {
    var ts := Snoc(Nil, EscPair(ESC));
    assert PrintTokens(ts) == [ESC, ESC];
    SpelledPrints(ts);
    KeptAsItIs(Spelled(ts));
    assert [ESC] + [ESC, BRACKET, 0x30, SEMICOLON, 0x41, BEL] == [ESC, ESC] + [BRACKET, 0x30, SEMICOLON, 0x41, BEL];
  }

  /** ... behind a broken code ... */
  lemma SurvivesBehindBrokenCode()
    ensures var u := [ESC, BRACKET] + [ESC, BRACKET, 0x30, SEMICOLON, 0x41, BEL]; Stripped(u) == u
  {
    var ts := Snoc(Nil, CodeBroken([], ESC));
    assert PrintTokens(ts) == [ESC, BRACKET, ESC];
    SpelledPrints(ts);
    KeptAsItIs(Spelled(ts));
    assert [ESC, BRACKET] + [ESC, BRACKET, 0x30, SEMICOLON, 0x41, BEL]
      == [ESC, BRACKET, ESC] + [BRACKET, 0x30, SEMICOLON, 0x41, BEL];
  }

  /** ... and in the body of an OSC that is kept. */
  lemma SurvivesInBody()
    ensures var u := [ESC, BRACKET, 0x35, SEMICOLON] + [ESC, BRACKET, 0x30, SEMICOLON, 0x41, BEL]; Stripped(u) == u
  {
    var body := Snoc(Snoc(Snoc(Snoc(Nil, Escaped(BRACKET)), Raw(0x30)), Raw(SEMICOLON)), Raw(0x41));
    assert PrintItems(body) == [ESC, BRACKET, 0x30, SEMICOLON, 0x41];
    var ts := Snoc(Nil, Osc([0x35], body, Bel));
    assert PrintTokens(ts) == [ESC, BRACKET, 0x35, SEMICOLON] + [ESC, BRACKET, 0x30, SEMICOLON, 0x41, BEL];
    KeptAsItIs(ts);
  }
}
