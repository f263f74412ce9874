/** Escape sequences and triggers as they are typed: byte for byte, apart from the tracker. */
module EscapeSequences {
  import opened Options
  import opened Octets
  import opened Sequences
  import opened Measures
  import opened Escapes
  import opened EscapeCascade

  // ---- one sequence ----

  /** ESC `[`, bytes below 0x40 or above 0x7e (parameters and intermediates are), and one final byte. */
  predicate IsCsi(s: seq<Key>) {
    && |s| >= 3 && s[0].b == 0x1b && s[1].b == 0x5b
    && (forall i :: 2 <= i < |s| - 1 ==> !(0x40 <= s[i].b <= 0x7e))
    && 0x40 <= s[|s| - 1].b <= 0x7e
  }

  /** ESC `O` and one byte. */
  predicate IsSs3(s: seq<Key>) {
    |s| == 3 && s[0].b == 0x1b && s[1].b == 0x4f
  }

  /** ESC and one other byte, as Alt with a key sends it. */
  predicate IsAlt(s: seq<Key>) {
    |s| == 2 && s[0].b == 0x1b && s[1].b != 0x5b && s[1].b != 0x4f
  }

  predicate IsSequence(s: seq<Key>) {
    IsCsi(s) || IsSs3(s) || IsAlt(s)
  }

  /** What the parameters and intermediates of a control sequence are by ECMA-48, section 5.4. */
  lemma ParametersInside(s: seq<Key>, params: seq<Key>, intermediates: seq<Key>, final: Key)
    requires |s| == 2 && s[0].b == 0x1b && s[1].b == 0x5b
    requires forall k :: k in params ==> 0x30 <= k.b <= 0x3f
    requires forall k :: k in intermediates ==> 0x20 <= k.b <= 0x2f
    requires 0x40 <= final.b <= 0x7e
    ensures IsSequence(s + params + intermediates + [final])
  {
    var t := s + params + intermediates + [final];
    forall i | 2 <= i < |t| - 1 ensures !(0x40 <= t[i].b <= 0x7e) {
      assert t[i] == (params + intermediates)[i - 2];
      assert t[i] in params || t[i] in intermediates;
    }
    assert t[0] == s[0] && t[1] == s[1];
  }

  /** The handler inside a sequence after its first `n` keys: nothing but the tracker differs. */
  ghost predicate Inside(h: Handler, s: seq<Key>, n: nat)
    requires h.Valid() && n <= |s|
  {
    var g := Run(h, s[..n]).h;
    && g == h.(term := g.term)
    && (g.term.Normal? <==> n == 0 || n == |s|)
  }

  lemma RunTake(h: Handler, s: seq<Key>, n: nat)
    requires h.Valid() && n < |s|
    ensures Run(h, s[..n + 1]) == Extend(Run(h, s[..n]), s[n])
  {
    TakeSnoc(s, n);
    RunSnoc(h, s[..n], s[n]);
  }

  /** Where in a sequence its first `n` keys lead. */
  function Within(s: seq<Key>, n: nat): TermSeq {
    if n == 0 || n == |s| then Normal else if n == 1 then AfterEsc else if IsCsi(s) then InCsi else InSs3
  }

  lemma SequenceStep(h: Handler, s: seq<Key>, n: nat)
    requires h.Valid() && IsSequence(s) && n < |s|
    ensures FeedKey(h.(term := Within(s, n)), s[n])
      == Step(h.(term := Within(s, n + 1)), SessionAction.Forward([s[n].b]), [])
  {
    FeedIgnoresSequences(h.(term := Within(s, n)), s[n]);
  }

  lemma {:induction false} InsideAfter(h: Handler, s: seq<Key>, n: nat)
    requires h.Valid() && h.term.Normal? && IsSequence(s) && n <= |s|
    ensures Run(h, s[..n]).h == h.(term := Within(s, n))
  {
    if n > 0 {
      InsideAfter(h, s, n - 1);
      RunTake(h, s, n - 1);
      SequenceStep(h, s, n - 1);
    }
  }

  lemma SequenceEnds(h: Handler, s: seq<Key>)
    requires h.Valid() && h.term.Normal? && IsSequence(s)
    ensures Run(h, s).h == h
  {
    InsideAfter(h, s, |s|);
    Sequences.Whole(s);
  }

  lemma WithinExactly(s: seq<Key>, n: nat)
    ensures Within(s, n).Normal? <==> n == 0 || n == |s|
  {
  }

  lemma InsideAlways(h: Handler, s: seq<Key>, n: nat)
    requires h.Valid() && h.term.Normal? && IsSequence(s) && n <= |s|
    ensures Inside(h, s, n)
  {
    assert Run(h, s[..n]).h == h.(term := Within(s, n)) by {
      InsideAfter(h, s, n);
    }
    WithinExactly(s, n);
  }

  lemma SequenceForwards(h: Handler, s: seq<Key>, n: nat)
    requires h.Valid() && h.term.Normal? && IsSequence(s) && n < |s|
    ensures FeedKey(Run(h, s[..n]).h, s[n]).action == SessionAction.Forward([s[n].b])
  {
    assert Run(h, s[..n]).h == h.(term := Within(s, n)) by {
      InsideAfter(h, s, n);
    }
    SequenceStep(h, s, n);
  }

  /**
   * Outside a sequence and whatever the detectors hold: every byte of a sequence is forwarded as it
   * is, the detectors stay as they were, and the handler is outside again after the last byte, not
   * earlier.
   */
  lemma SequenceIsOpaque(h: Handler, s: seq<Key>, n: nat)
    requires h.Valid() && h.term.Normal? && IsSequence(s) && n < |s|
    ensures FeedKey(Run(h, s[..n]).h, s[n]).action == SessionAction.Forward([s[n].b])
    ensures Inside(h, s, n + 1)
    ensures Run(h, s).h == h
  {
    SequenceForwards(h, s, n);
    InsideAlways(h, s, n + 1);
    SequenceEnds(h, s);
  }

  // ---- whole runs ----

  /** A sequence, or one key that starts none. */
  predicate IsPiece(p: seq<Key>) {
    IsSequence(p) || IsPlain(p)
  }

  predicate IsPlain(p: seq<Key>) {
    |p| == 1 && p[0].b != 0x1b
  }

  function Joined(pieces: seq<seq<Key>>): seq<Key>
    decreases |pieces|
  {
    if pieces == [] then [] else Joined(pieces[..|pieces| - 1]) + pieces[|pieces| - 1]
  }

  /** The keys typed outside sequences. */
  function Plain(pieces: seq<seq<Key>>): seq<Key>
    decreases |pieces|
  {
    if pieces == [] then []
    else
      var front, last := Plain(pieces[..|pieces| - 1]), pieces[|pieces| - 1];
      if IsPlain(last) then front + last else front
  }

  lemma {:induction false} RunConcat(h: Handler, a: seq<Key>, b: seq<Key>)
    requires h.Valid()
    ensures Run(h, a + b).h == Run(Run(h, a).h, b).h
    decreases |b|
  {
    if b == [] {
      Unit(a);
    } else {
      ConcatFront(a, b);
      RunConcat(h, a, b[..|b| - 1]);
      RunHandler(h, a + b[..|b| - 1], b[|b| - 1]);
      RunHandler(Run(h, a).h, b[..|b| - 1], b[|b| - 1]);
      Snoc(b);
      Assoc(a, b[..|b| - 1], [b[|b| - 1]]);
    }
  }

  lemma PlainKey(h: Handler, p: seq<Key>)
    requires h.Valid() && h.term.Normal? && IsPlain(p)
    ensures Run(h, p).h.term.Normal?
  {
    RunTake(h, p, 0);
    Sequences.Whole(p);
    FeedIgnoresSequences(h, p[0]);
    assert Run(h, p[..0]).h == h;
  }

  lemma PieceStep(h: Handler, before: seq<Key>, plain: seq<Key>, p: seq<Key>)
    requires h.Valid() && IsPiece(p) && Run(h, before).h == Run(h, plain).h && Run(h, before).h.term.Normal?
    ensures Run(h, before + p).h == Run(h, if IsPlain(p) then plain + p else plain).h
    ensures Run(h, before + p).h.term.Normal?
  {
    RunConcat(h, before, p);
    RunConcat(h, plain, p);
    if IsPlain(p) {
      PlainKey(Run(h, before).h, p);
    } else {
      SequenceEnds(Run(h, before).h, p);
    }
  }

  /**
   * Typing pieces, each a sequence or a key outside sequences, leaves the handler as typing only the
   * keys outside sequences does; so the next key acts alike.
   */
  lemma {:induction false} SequencesAreInvisible(h: Handler, pieces: seq<seq<Key>>)
    requires h.Valid() && h.term.Normal? && forall p :: p in pieces ==> IsPiece(p)
    ensures Run(h, Joined(pieces)).h == Run(h, Plain(pieces)).h && Run(h, Joined(pieces)).h.term.Normal?
    decreases |pieces|
  {
    if pieces != [] {
      var front, last := pieces[..|pieces| - 1], pieces[|pieces| - 1];
      assert IsPiece(last);
      forall p | p in front ensures IsPiece(p) {
        assert p in pieces;
      }
      SequencesAreInvisible(h, front);
      PieceStep(h, Joined(front), Plain(front), last);
    }
  }

  // ---- triggers ----

  /** A key is unhurried exactly from 20 milliseconds after the key before. */
  lemma UnhurriedExactly(keys: seq<Key>, i: nat)
    requires 1 <= i < |keys|
    ensures Unhurried(keys, i) <==> keys[i].at >= keys[i - 1].at + 20_000_000
  {
  }

  /** A handler at rest with three triggers of two bytes that share the first. */
  predicate AtRest(h: Handler, c: byte, x: byte, y: byte, z: byte) {
    && h.Valid() && h.term.Normal? && h.Held() == []
    && h.snippet.trigger == [c, x] && h.bookmark.trigger == [c, y] && h.browser.trigger == [c, z]
  }

  /** A stage at rest fed two bytes: it fires, or hands both on. */
  lemma StageOnPair(d: Detector, c: byte, y: byte, b: byte, at: nat)
    requires d.Valid() && d.buffered == [] && d.trigger == [c, y]
    ensures var r := RunStage(d, [c, b], at);
      && r.d.Valid() && r.d.buffered == []
      && r.fired == (b == y) && r.out == (if b == y then [] else [c, b]) && r.left == []
  {
    var bytes := [c, b];
    StageStep(d, bytes, 0, at);
    var e := FeedUntimed(d, Key(c, at)).0;
    assert e.matched == 1 && e.buffered == [c];
    StageStep(e, bytes, 1, at);
    assert bytes[0..] == bytes && bytes[2..] == [];
    Unit([c] + [b]);
  }

  /** Both bytes reach the second detector, and then the third. */
  lemma PairCascades(h: Handler, snippet: Detector, c: byte, y: byte, z: byte, b: byte, at: nat)
    requires h.Valid() && h.term.Normal? && snippet.buffered == []
    requires h.bookmark.trigger == [c, y] && h.bookmark.buffered == []
    requires h.browser.trigger == [c, z] && h.browser.buffered == []
    ensures var r := Cascade(h, snippet, [c, b], at);
      && r.h.Held() == [] && r.h.term.Normal?
      && r.action ==
         if b == y then ShowSaveBookmark else if b == z then ShowBrowser else SessionAction.Forward([c, b])
  {
    StageOnPair(h.bookmark, c, y, b, at);
    StageOnPair(h.browser, c, z, b, at);
  }

  /** The first byte of the trigger is held; after it comes the second, in time, or both are let go. */
  lemma SnippetOnPair(d: Detector, c: byte, x: byte, k: Key, l: Key)
    requires d.Valid() && d.buffered == [] && d.trigger == [c, x] && k.b == c
    ensures Feed(d, k) == (Detector([c, x], 1, [c], Some(k.at)), Hold)
    ensures Feed(Feed(d, k).0, l) ==
      (d.Reset(), if l.b == x && l.at >= k.at + 20_000_000 then Trigger else Action.Forward([c, l.b]))
  {
    assert [c, x][..1] == [c] && [] + [c] == [c] && [c] + [l.b] == [c, l.b];
    assert |d.buffered| == d.matched;
  }

  /**
   * From rest, the common first byte is held.  The next byte fires the first trigger if it fits and
   * comes at least 20 milliseconds later; else the second or the third, at any time; else both bytes
   * are forwarded together.  Nothing stays held.
   */
  lemma PairFires(h: Handler, c: byte, x: byte, y: byte, z: byte, k: Key, l: Key)
    requires AtRest(h, c, x, y, z) && c != 0x1b && k.b == c && l.b != 0x1b
    ensures FeedKey(h, k).action == Buffer && FeedKey(h, k).h.Valid()
    ensures var r := FeedKey(FeedKey(h, k).h, l);
      && r.h.Held() == [] && r.h.term.Normal?
      && r.action ==
         if l.b == x && l.at >= k.at + 20_000_000 then ShowSnippets
         else if l.b == y then ShowSaveBookmark
         else if l.b == z then ShowBrowser
         else SessionAction.Forward([c, l.b])
  {
    assert h.snippet.buffered == [] && h.bookmark.buffered == [] && h.browser.buffered == [];
    SnippetOnPair(h.snippet, c, x, k, l);
    var g := h.(snippet := Detector([c, x], 1, [c], Some(k.at)));
    assert FeedKey(h, k) == Step(g, Buffer, []);
    assert !Track(g.term, l.b).1;
    PairCascades(g, h.snippet.Reset(), c, y, z, l.b, l.at);
  }
}
