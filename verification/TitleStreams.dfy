/** What is stripped from a stream and what is passed on, byte for byte, apart from the grammar. */
module TitleStreams {
  import opened Octets
  import opened Sequences
  import opened OscTokens

  // ---- the forms, as bytes ----

  predicate IsNumber(code: seq<byte>) {
    forall i :: 0 <= i < |code| ==> 0x30 <= code[i] <= 0x39
  }

  /** 0 or 2, or one of 10, 11 and 12. */
  predicate TitleNumber(code: seq<byte>) {
    code == [0x30] || code == [0x32] || (|code| == 2 && code[0] == 0x31 && 0x30 <= code[1] <= 0x32)
  }

  /** Bytes other than BEL and ESC, and ESC with any byte but a backslash. */
  predicate IsBody(s: seq<byte>)
    decreases |s|
  {
    s == [] ||
    (s[|s| - 1] != 0x07 && s[|s| - 1] != 0x1b && IsBody(s[..|s| - 1])) ||
    (|s| >= 2 && s[|s| - 2] == 0x1b && s[|s| - 1] != 0x5c && IsBody(s[..|s| - 2]))
  }

  /** BEL, or ESC and a backslash. */
  predicate IsEnd(end: seq<byte>) {
    end == [0x07] || end == [0x1b, 0x5c]
  }

  function Begin(code: seq<byte>): seq<byte> {
    [0x1b, 0x5d] + code
  }

  // ---- boundaries ----

  /** `s` does not end inside a token. */
  predicate Complete(s: seq<byte>) {
    Parse(s).rest == Nothing
  }

  lemma {:induction false} KeptAfter(ts: List<Token>, q: Rest, s: seq<byte>)
    ensures var p, r := FeedAll(Reading(ts, q), s), FeedAll(Reading(Nil, q), s);
      p.rest == r.rest && Print(KeepReading(p)) == PrintTokens(Keep(ts)) + Print(KeepReading(r))
    decreases |s|
  {
    var kept := PrintTokens(Keep(ts));
    if s == [] {
      Unit(PrintRest(KeepRest(q)));
    } else {
      FeedTail(Reading(ts, q), s[0]);
      FeedTail(Reading(Nil, q), s[0]);
      var x := TailOf(q, s[0]);
      if x.Unfinished? {
        KeptAfter(ts, x.q, s[1..]);
      } else {
        KeptAfter(Snoc(ts, x.t), Nothing, s[1..]);
        KeptAfter(Snoc(Nil, x.t), Nothing, s[1..]);
        KeptSnoc(ts, x.t);
        Assoc(kept, PrintTokens(Keep(Snoc(Nil, x.t))), Print(KeepReading(FeedAll(FRESH, s[1..]))));
      }
    }
  }

  lemma KeptSnoc(ts: List<Token>, t: Token)
    ensures PrintTokens(Keep(Snoc(ts, t))) == PrintTokens(Keep(ts)) + PrintTokens(Keep(Snoc(Nil, t)))
  {
    Unit(PrintTokens(Keep(ts)));
    Unit(PrintToken(t));
  }

  /** After a complete stream the rest of the stream is stripped by itself. */
  lemma StrippedInParts(a: seq<byte>, b: seq<byte>)
    requires Complete(a)
    ensures Stripped(a + b) == Stripped(a) + Stripped(b)
    ensures Parse(a + b).rest == Parse(b).rest
  {
    FeedAllConcat(FRESH, a, b);
    KeptAfter(Parse(a).tokens, Nothing, b);
    Unit(PrintTokens(Keep(Parse(a).tokens)));
  }

  lemma TokenAlone(t: Token)
    requires TokenOk(t)
    ensures Complete(PrintToken(t)) && Stripped(PrintToken(t)) == if IsTitle(t) then [] else PrintToken(t)
  {
    FeedToken(Nil, t);
    assert Parse(PrintToken(t)) == Reading(List.Snoc(Nil, t), Nothing);
    assert Keep(List.Snoc(Nil, t)) == if IsTitle(t) then Nil else List.Snoc(Nil, t);
    assert PrintTokens(Nil) == [];
    Unit(PrintToken(t));
  }

  // ---- what passes ----

  lemma {:induction false} TextAlone(text: seq<byte>)
    requires 0x1b !in text
    ensures Complete(text) && Stripped(text) == text
    decreases |text|
  {
    if text != [] {
      assert text[0] in text && [text[0]] + text[1..] == text;
      TextAlone(text[1..]);
      TokenAlone(Plain(text[0]));
      StrippedInParts([text[0]], text[1..]);
    }
  }

  /** Text without ESC passes, wherever it stands between tokens. */
  lemma TextPasses(before: seq<byte>, text: seq<byte>, after: seq<byte>)
    requires Complete(before) && 0x1b !in text
    ensures Stripped(before + text + after) == Stripped(before) + text + Stripped(after)
  {
    TextAlone(text);
    StrippedInParts(before, text);
    StrippedInParts(before + text, after);
  }

  /** ESC with a byte that opens no OSC, or an OSC whose number is broken off by another byte. */
  lemma OtherEscapesPass(before: seq<byte>, b: byte, code: seq<byte>, c: byte, after: seq<byte>)
    requires Complete(before) && b != 0x5d
    requires IsNumber(code) && !(0x30 <= c <= 0x39) && c != 0x3b && c != 0x07
    ensures Stripped(before + [0x1b, b] + after) == Stripped(before) + [0x1b, b] + Stripped(after)
    ensures Stripped(before + (Begin(code) + [c]) + after) == Stripped(before) + (Begin(code) + [c]) + Stripped(after)
  {
    TokenStands(before, EscPair(b), after);
    TokenStands(before, CodeBroken(code, c), after);
  }

  lemma TokenStands(before: seq<byte>, t: Token, after: seq<byte>)
    requires Complete(before) && TokenOk(t)
    ensures Stripped(before + PrintToken(t) + after)
      == Stripped(before) + (if IsTitle(t) then [] else PrintToken(t)) + Stripped(after)
  {
    TokenAlone(t);
    StrippedInParts(before, PrintToken(t));
    StrippedInParts(before + PrintToken(t), after);
  }

  // ---- what is stripped ----

  lemma {:induction false} BodyItems(s: seq<byte>) returns (body: List<Item>)
    requires IsBody(s)
    ensures BodyOk(body) && PrintItems(body) == s
    decreases |s|
  {
    if s == [] {
      body := Nil;
    } else if s[|s| - 1] != 0x07 && s[|s| - 1] != 0x1b && IsBody(s[..|s| - 1]) {
      var front := BodyItems(s[..|s| - 1]);
      body := Snoc(front, Raw(s[|s| - 1]));
      Sequences.Snoc(s);
    } else {
      var front := BodyItems(s[..|s| - 2]);
      body := Snoc(front, Escaped(s[|s| - 1]));
      assert s == s[..|s| - 2] + [s[|s| - 2], s[|s| - 1]];
    }
  }

  /**
   * An OSC between other bytes, whatever its body: it goes exactly when its number is that of a
   * title, and what stands around it is stripped by itself.  The same without a body.
   */
  lemma TitleGoesExactly(before: seq<byte>, code: seq<byte>, body: seq<byte>, end: seq<byte>, after: seq<byte>)
    requires Complete(before) && IsNumber(code) && IsBody(body) && IsEnd(end)
    ensures var osc := Begin(code) + [0x3b] + body + end;
      Stripped(before + osc + after)
      == Stripped(before) + (if TitleNumber(code) then [] else osc) + Stripped(after)
    ensures var osc := Begin(code) + [0x07];
      Stripped(before + osc + after)
      == Stripped(before) + (if TitleNumber(code) then [] else osc) + Stripped(after)
  {
    var items := BodyItems(body);
    TitleCodes(code);
    TokenStands(before, Osc(code, items, if end == [0x07] then Bel else StringTerminator), after);
    TokenStands(before, CodeOnly(code), after);
  }

  lemma TitleCodes(code: seq<byte>)
    ensures IsTitleCode(code) <==> TitleNumber(code)
  {
    if TitleNumber(code) && |code| == 2 {
      assert code == [code[0], code[1]];
    }
  }

  /** An OSC that has not ended: its body is passed on as it comes, unless it is a title's. */
  lemma UnfinishedOsc(before: seq<byte>, code: seq<byte>, body: seq<byte>)
    requires Complete(before) && IsNumber(code) && IsBody(body)
    ensures var osc := Begin(code) + [0x3b] + body;
      Stripped(before + osc) == Stripped(before) + if TitleNumber(code) then [] else osc
  {
    var items := BodyItems(body);
    TitleCodes(code);
    var osc := Begin(code) + [0x3b] + body;
    FeedBody(Nil, code, items, []);
    Unit(osc);
    StrippedInParts(before, osc);
  }

  /** Nothing of an OSC is passed on before its number is known. */
  lemma BeginningsWait(before: seq<byte>, code: seq<byte>)
    requires Complete(before) && IsNumber(code)
    ensures Stripped(before + Begin(code)) == Stripped(before + [0x1b]) == Stripped(before)
  {
    FeedOpening(Nil, code, []);
    Unit(Begin(code));
    StrippedInParts(before, Begin(code));
    FeedOne(FRESH, 0x1b);
    StrippedInParts(before, [0x1b]);
    Unit(Stripped(before));
  }
}
