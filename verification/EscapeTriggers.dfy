/**
 * Which two-byte triggers make the cascade drop bytes.
 *
 * A later detector fires in the middle of a flush only if it can be waiting for, or be started by, a
 * byte that an earlier detector lets go of together with others.  For triggers of two bytes, as
 * the defaults are, that is a condition on the triggers alone (`Compatible`).
 */
module EscapeTriggers {
  import opened Options
  import opened Octets
  import opened Sequences
  import opened Measures
  import opened Escapes
  import opened EscapeCascade

  /** An absent trigger, or two bytes that can be typed outside escape sequences. */
  predicate TwoBytes(t: seq<byte>) {
    t == [] || (|t| == 2 && ESC !in t)
  }

  /** What `x` holds back and flushes never brings `y` to its trigger in the middle of a flush. */
  predicate Apart(x: seq<byte>, y: seq<byte>) {
    x == [] || y == [] || y[0] == x[0] || x[0] !in y
  }

  predicate Compatible(s: seq<byte>, b: seq<byte>, w: seq<byte>) {
    && Apart(s, b) && Apart(s, w) && Apart(b, w)
    && !(s != [] && b != [] && w != [] && w[0] == s[0] != b[0])
  }

  // ---- the result ----

  /** Some run drops a byte. */
  ghost predicate CanDrop(h: Handler)
    requires h.Valid()
  {
    exists keys :: Run(h, keys).dropped != []
  }

  /**
   * With triggers of two bytes no run ever drops a byte exactly when the triggers are compatible:
   * each pair starts with the same byte or the later one does not hold the first byte of the earlier
   * one, and the third does not start like the first while the second starts differently.
   */
  lemma NothingDroppedExactly(s: seq<byte>, b: seq<byte>, w: seq<byte>)
    requires TwoBytes(s) && TwoBytes(b) && TwoBytes(w)
    ensures !CanDrop(NewHandler(s, b, w)) <==> Compatible(s, b, w)
  {
    if Compatible(s, b, w) {
      forall keys ensures Run(NewHandler(s, b, w), keys).dropped == [] {
        SafeRun(NewHandler(s, b, w), keys);
      }
    } else {
      IncompatibleDrops(NewHandler(s, b, w), s, b, w);
    }
  }

  // ---- a later stage with a two-byte trigger ----

  /** What a stage does with a word: does it hold its first byte afterwards, what did it hand on? */
  datatype Passed = Passed(held: bool, fired: bool, out: seq<byte>, left: seq<byte>)

  function PassOne(t: seq<byte>, held: bool, a: byte): Passed
    requires TwoBytes(t)
  {
    if t == [] then Passed(false, false, [a], [])
    else if !held then (if a == t[0] then Passed(true, false, [], []) else Passed(false, false, [a], []))
    else if a == t[1] then Passed(false, true, [], [])
    else Passed(false, false, [t[0], a], [])
  }

  function Pass(t: seq<byte>, held: bool, word: seq<byte>): Passed
    requires TwoBytes(t)
    decreases |word|
  {
    if word == [] then Passed(held, false, [], [])
    else
      var r := PassOne(t, held, word[0]);
      if r.fired then r.(left := word[1..])
      else
        var n := Pass(t, r.held, word[1..]);
        n.(out := r.out + n.out)
  }

  predicate Holds(d: Detector) {
    d.buffered != []
  }

  predicate Agrees(d: Detector, r: Stage, p: Passed) {
    && r.d.Valid() && r.d.trigger == d.trigger && Holds(r.d) == p.held
    && r.fired == p.fired && r.out == p.out && r.left == p.left
  }

  lemma {:induction false} StagePasses(d: Detector, word: seq<byte>, at: nat)
    requires d.Valid() && TwoBytes(d.trigger) && (d.trigger == [] ==> !Holds(d))
    ensures Agrees(d, RunStage(d, word, at), Pass(d.trigger, Holds(d), word))
    decreases |word|
  {
    if word != [] {
      var (e, a) := FeedUntimed(d, Key(word[0], at));
      FeedPasses(d, word[0], at);
      if !a.Trigger? {
        StagePasses(e, word[1..], at);
        Unit(RunStage(e, word[1..], at).out);
      }
    }
  }

  lemma FeedPasses(d: Detector, b: byte, at: nat)
    requires d.Valid() && TwoBytes(d.trigger) && (d.trigger == [] ==> !Holds(d))
    ensures var ((e, a), p) := (FeedUntimed(d, Key(b, at)), PassOne(d.trigger, Holds(d), b));
      && e.Valid() && e.trigger == d.trigger && Holds(e) == p.held && (e.trigger == [] ==> !Holds(e))
      && a.Trigger? == p.fired && p.left == [] && (!p.fired ==> Replay(a, d.trigger) == p.out)
      && (p.fired ==> p.out == [])
  {
    assert d.trigger != [] ==> d.trigger[..1] == [d.trigger[0]];
  }

  lemma PassTwo(t: seq<byte>, held: bool, a: byte, b: byte)
    requires TwoBytes(t)
    ensures Pass(t, held, [a]) == PassOne(t, held, a)
    ensures var r := PassOne(t, held, a);
      Pass(t, held, [a, b]) ==
      if r.fired then r.(left := [b]) else var n := PassOne(t, r.held, b); n.(out := r.out + n.out)
  {
    PassLast(t, held, a);
    assert [a, b][1..] == [b];
    PassLast(t, PassOne(t, held, a).held, b);
  }

  lemma PassLast(t: seq<byte>, held: bool, a: byte)
    requires TwoBytes(t)
    ensures Pass(t, held, [a]) == PassOne(t, held, a)
  {
    assert [a][1..] == [];
    Unit(PassOne(t, held, a).out);
  }

  lemma PassThree(t: seq<byte>, held: bool, a: byte, b: byte, c: byte)
    requires TwoBytes(t)
    ensures var r := PassOne(t, held, a);
      Pass(t, held, [a, b, c]) ==
      if r.fired then r.(left := [b, c]) else var n := Pass(t, r.held, [b, c]); n.(out := r.out + n.out)
  {
    assert [a, b, c][1..] == [b, c];
  }

  // ---- a flush through both later stages ----

  datatype Held = Held(b: bool, w: bool)

  predicate Loses(b: seq<byte>, w: seq<byte>, held: Held, flush: seq<byte>)
    requires TwoBytes(b) && TwoBytes(w)
  {
    var p := Pass(b, held.b, flush);
    if p.fired then p.out + p.left != []
    else var q := Pass(w, held.w, p.out); q.fired && q.out + q.left != []
  }

  function Next(b: seq<byte>, w: seq<byte>, held: Held, flush: seq<byte>): Held
    requires TwoBytes(b) && TwoBytes(w)
  {
    var p := Pass(b, held.b, flush);
    Held(p.held, if p.fired then held.w else Pass(w, held.w, p.out).held)
  }

  /** What the first stage lets go of: any byte when it is absent, else a byte that is not its first, or a pair. */
  predicate IsFlush(s: seq<byte>, flush: seq<byte>) {
    if s == [] then |flush| == 1
    else (|flush| == 1 && flush[0] != s[0]) || (|flush| == 2 && flush[0] == s[0])
  }

  /** The stages that hold nothing between two keys. */
  predicate AtRest(s: seq<byte>, b: seq<byte>, w: seq<byte>, held: Held) {
    && (b == [] ==> !held.b) && (w == [] ==> !held.w)
    && (s != [] && b != [] && b[0] == s[0] ==> !held.b)
    && (b != [] && w != [] && w[0] == b[0] ==> !held.w)
    && (s != [] && w != [] && w[0] == s[0] ==> !held.w)
  }

  // ---- compatible triggers lose nothing ----

  /** A word whose bytes before the last are foreign to the trigger. */
  predicate Foreign(t: seq<byte>, word: seq<byte>) {
    forall i :: 0 <= i < |word| - 1 ==> word[i] !in t
  }

  lemma ForeignPasses(t: seq<byte>, held: bool, word: seq<byte>)
    requires TwoBytes(t) && t != [] && |word| <= 3 && Foreign(t, word)
    ensures Pass(t, held, word).fired ==> Pass(t, held, word).out + Pass(t, held, word).left == []
  {
    if |word| == 1 {
      assert word == [word[0]];
      PassLast(t, held, word[0]);
    } else if |word| == 2 {
      assert word == [word[0], word[1]];
      PassTwo(t, held, word[0], word[1]);
    } else if |word| == 3 {
      assert word == [word[0], word[1], word[2]];
      PassThree(t, held, word[0], word[1], word[2]);
      PassTwo(t, false, word[1], word[2]);
    }
  }

  /** The second stage after a flush that it did not fire on: what it hands on. */
  predicate HandsOn(s: seq<byte>, b: seq<byte>, word: seq<byte>) {
    if b == [] then IsFlush(s, word)
    else if s == [] || b[0] == s[0] then
      word == [] || (|word| == 1 && word[0] != b[0]) || (|word| == 2 && word[0] == b[0])
    else
      || word == []
      || (|word| == 1 && word[0] != b[0])
      || (|word| == 2 && word[0] == b[0])
      || (|word| == 2 && word[0] == s[0] && word[1] != b[0])
      || (|word| == 3 && word[0] == b[0] && word[1] == s[0] && word[2] != b[0])
  }

  lemma SecondStage(s: seq<byte>, b: seq<byte>, held: bool, flush: seq<byte>)
    requires TwoBytes(s) && TwoBytes(b) && Apart(s, b) && IsFlush(s, flush)
    requires b == [] || (s != [] && b[0] == s[0]) ==> !held
    ensures var p := Pass(b, held, flush);
      && (p.fired ==> p.out + p.left == [])
      && (b == [] || (s != [] && b[0] == s[0]) ==> !p.held)
      && (!p.fired ==> HandsOn(s, b, p.out))
  {
    if |flush| == 1 {
      assert flush == [flush[0]];
      PassLast(b, held, flush[0]);
    } else {
      assert flush == [flush[0], flush[1]];
      PassTwo(b, held, flush[0], flush[1]);
    }
  }

  /** The third stage shares its first byte with an earlier one: it rests, and fires on its trigger only. */
  lemma ThirdRests(s: seq<byte>, b: seq<byte>, w: seq<byte>, word: seq<byte>)
    requires TwoBytes(s) && TwoBytes(b) && TwoBytes(w) && Compatible(s, b, w) && w != []
    requires (b != [] && w[0] == b[0]) || (s != [] && w[0] == s[0])
    requires HandsOn(s, b, word)
    ensures var q := Pass(w, false, word); !q.held && (q.fired ==> q.out + q.left == [])
  {
    if |word| == 1 {
      assert word == [word[0]];
      PassLast(w, false, word[0]);
    } else if |word| == 2 {
      assert word == [word[0], word[1]];
      PassTwo(w, false, word[0], word[1]);
    } else if |word| == 3 {
      assert word == [word[0], word[1], word[2]];
      PassThree(w, false, word[0], word[1], word[2]);
      PassTwo(w, true, word[1], word[2]);
    }
  }

  lemma ThirdForeign(s: seq<byte>, b: seq<byte>, w: seq<byte>, held: bool, word: seq<byte>)
    requires TwoBytes(s) && TwoBytes(b) && TwoBytes(w) && Compatible(s, b, w) && w != []
    requires !((b != [] && w[0] == b[0]) || (s != [] && w[0] == s[0]))
    requires HandsOn(s, b, word)
    ensures var q := Pass(w, held, word); q.fired ==> q.out + q.left == []
  {
    assert Foreign(w, word);
    ForeignPasses(w, held, word);
  }

  lemma {:induction false} AbsentPasses(word: seq<byte>)
    ensures !Pass([], false, word).held && !Pass([], false, word).fired
    decreases |word|
  {
    if word != [] {
      AbsentPasses(word[1..]);
    }
  }

  lemma CompatibleFlush(s: seq<byte>, b: seq<byte>, w: seq<byte>, held: Held, flush: seq<byte>)
    requires TwoBytes(s) && TwoBytes(b) && TwoBytes(w) && Compatible(s, b, w)
    requires AtRest(s, b, w, held) && IsFlush(s, flush)
    ensures !Loses(b, w, held, flush) && AtRest(s, b, w, Next(b, w, held, flush))
  {
    SecondStage(s, b, held.b, flush);
    var p := Pass(b, held.b, flush);
    if !p.fired {
      if w == [] {
        AbsentPasses(p.out);
      } else if (b != [] && w[0] == b[0]) || (s != [] && w[0] == s[0]) {
        ThirdRests(s, b, w, p.out);
      } else {
        ThirdForeign(s, b, w, held.w, p.out);
      }
    }
  }

  // ---- the handler ----

  function HeldBy(h: Handler): Held {
    Held(Holds(h.bookmark), Holds(h.browser))
  }

  predicate WellHeld(h: Handler) {
    && h.Valid() && TwoBytes(h.snippet.trigger) && TwoBytes(h.bookmark.trigger) && TwoBytes(h.browser.trigger)
    && (h.bookmark.trigger == [] ==> !Holds(h.bookmark)) && (h.browser.trigger == [] ==> !Holds(h.browser))
  }

  lemma CascadeLoses(h: Handler, s: Detector, flush: seq<byte>, at: nat)
    requires WellHeld(h) && s.Valid() && s.trigger == h.snippet.trigger
    ensures var r := Cascade(h, s, flush, at);
      && WellHeld(r.h) && SameTriggers(h, r.h) && r.h.snippet == s && r.h.term == h.term
      && (r.dropped != [] <==> Loses(h.bookmark.trigger, h.browser.trigger, HeldBy(h), flush))
      && HeldBy(r.h) == Next(h.bookmark.trigger, h.browser.trigger, HeldBy(h), flush)
  {
    var b := RunStage(h.bookmark, flush, at);
    StagePasses(h.bookmark, flush, at);
    AbsentPasses(flush);
    if !b.fired {
      StagePasses(h.browser, b.out, at);
      AbsentPasses(b.out);
    }
  }

  ghost predicate Safe(h: Handler) {
    && WellHeld(h) && Compatible(h.snippet.trigger, h.bookmark.trigger, h.browser.trigger)
    && AtRest(h.snippet.trigger, h.bookmark.trigger, h.browser.trigger, HeldBy(h))
  }

  lemma FirstFlushes(d: Detector, k: Key)
    requires d.Valid() && TwoBytes(d.trigger) && Feed(d, k).1.Forward?
    ensures IsFlush(d.trigger, Feed(d, k).1.bytes)
  {
  }

  lemma SafeKey(h: Handler, k: Key)
    requires Safe(h)
    ensures FeedKey(h, k).dropped == [] && Safe(FeedKey(h, k).h) && SameTriggers(h, FeedKey(h, k).h)
  {
    if !Track(h.term, k.b).1 {
      FeedConserves(h.snippet, k);
      var (s, a) := Feed(h.snippet, k);
      if a.Forward? {
        FirstFlushes(h.snippet, k);
        CompatibleFlush(h.snippet.trigger, h.bookmark.trigger, h.browser.trigger, HeldBy(h), a.bytes);
        CascadeLoses(h.(term := Track(h.term, k.b).0), s, a.bytes, k.at);
      }
    }
  }

  lemma {:induction false} SafeRun(h: Handler, keys: seq<Key>)
    requires Safe(h)
    ensures Run(h, keys).dropped == [] && Safe(Run(h, keys).h)
    decreases |keys|
  {
    if keys != [] {
      SafeRun(h, keys[..|keys| - 1]);
      SafeKey(Run(h, keys[..|keys| - 1]).h, keys[|keys| - 1]);
    }
  }

  // ---- other triggers lose something ----

  lemma {:induction false} RunFront(h: Handler, k: Key, keys: seq<Key>)
    requires h.Valid()
    ensures FeedKey(h, k).h.Valid()
    ensures Run(h, [k] + keys).h == Run(FeedKey(h, k).h, keys).h
    ensures Run(h, [k] + keys).dropped == FeedKey(h, k).dropped + Run(FeedKey(h, k).h, keys).dropped
    decreases |keys|
  {
    LengthAdditive<byte>();
    FeedKeyAccounts(h, k, Length());
    if keys == [] {
      assert [k] + keys == [] + [k];
      RunSnoc(h, [], k);
      Unit(FeedKey(h, k).dropped);
    } else {
      var front, last := keys[..|keys| - 1], keys[|keys| - 1];
      RunFront(h, k, front);
      Snoc(keys);
      Assoc([k], front, [last]);
      RunSnoc(h, [k] + front, last);
      RunSnoc(FeedKey(h, k).h, front, last);
      Assoc(FeedKey(h, k).dropped, Run(FeedKey(h, k).h, front).dropped,
            FeedKey(Run(FeedKey(h, k).h, front).h, last).dropped);
    }
  }

  lemma DropsLater(h: Handler, k: Key)
    requires h.Valid()
    ensures FeedKey(h, k).h.Valid()
    ensures FeedKey(h, k).dropped != [] || CanDrop(FeedKey(h, k).h) ==> CanDrop(h)
  {
    RunFront(h, k, []);
    if CanDrop(FeedKey(h, k).h) {
      var keys :| Run(FeedKey(h, k).h, keys).dropped != [];
      RunFront(h, k, keys);
      assert Run(h, [k] + keys).dropped != [];
    }
  }

  /** A handler with these triggers whose first stage holds nothing, outside escape sequences. */
  predicate In(h: Handler, s: seq<byte>, b: seq<byte>, w: seq<byte>, held: Held) {
    && WellHeld(h) && h.term.Normal? && h.snippet.buffered == [] && HeldBy(h) == held
    && h.snippet.trigger == s && h.bookmark.trigger == b && h.browser.trigger == w
  }

  /** Typing a byte that the first stage lets go at once. */
  lemma TypeOne(h: Handler, s: seq<byte>, b: seq<byte>, w: seq<byte>, held: Held, x: byte) returns (g: Handler)
    requires In(h, s, b, w, held) && x != ESC && (s == [] || x != s[0])
    ensures In(g, s, b, w, Next(b, w, held, [x]))
    ensures Loses(b, w, held, [x]) || CanDrop(g) ==> CanDrop(h)
  {
    var k := Key(x, 0);
    FeedConserves(h.snippet, k);
    Unit([x]);
    assert h.snippet.matched == 0;
    assert Feed(h.snippet, k) == (h.snippet, Action.Forward([x]));
    CascadeLoses(h, h.snippet, [x], 0);
    DropsLater(h, k);
    g := FeedKey(h, k).h;
  }

  /** Typing the first stage's first byte and, at once, another: both are let go together. */
  lemma TypeTwo(h: Handler, s: seq<byte>, b: seq<byte>, w: seq<byte>, held: Held, x: byte) returns (g: Handler)
    requires In(h, s, b, w, held) && x != ESC && s != []
    ensures In(g, s, b, w, Next(b, w, held, [s[0], x]))
    ensures Loses(b, w, held, [s[0], x]) || CanDrop(g) ==> CanDrop(h)
  {
    var first, second := Key(s[0], 0), Key(x, 0);
    var waiting := h.(snippet := Detector(s, 1, [s[0]], Some(0)));
    FeedConserves(h.snippet, first);
    assert FeedKey(h, first) == Step(waiting, Buffer, []);
    DropsLater(h, first);
    assert [s[0]] + [x] == [s[0], x];
    assert Feed(waiting.snippet, second) == (NewDetector(s), Action.Forward([s[0], x]));
    CascadeLoses(waiting, NewDetector(s), [s[0], x], 0);
    DropsLater(waiting, second);
    g := FeedKey(waiting, second).h;
  }

  /** The second trigger ends in the first one's first byte. */
  lemma SecondCutShort(h: Handler, s: seq<byte>, b: seq<byte>, w: seq<byte>)
    requires In(h, s, b, w, Held(false, false)) && !Apart(s, b)
    ensures CanDrop(h)
  {
    PassLast(b, false, b[0]);
    var g := TypeOne(h, s, b, w, Held(false, false), b[0]);
    PassTwo(b, true, s[0], s[0]);
    var _ := TypeTwo(g, s, b, w, Next(b, w, Held(false, false), [b[0]]), s[0]);
  }

  /** The third trigger ends in the first one's first byte ... */
  lemma ThirdCutShort(h: Handler, s: seq<byte>, b: seq<byte>, w: seq<byte>)
    requires In(h, s, b, w, Held(false, false)) && Apart(s, b) && !Apart(s, w)
    ensures CanDrop(h)
  {
    var d := w[0];
    PassLast(b, false, d);
    PassLast(w, false, d);
    var g := TypeOne(h, s, b, w, Held(false, false), d);
    if b == [] || d != b[0] {
      ThirdWaiting(g, s, b, w);
    } else {
      SecondWaiting(g, s, b, w);
    }
    assert CanDrop(g);
  }

  /** ... and waits for it, or the second one holds what the third one would wait with. */
  lemma ThirdWaiting(h: Handler, s: seq<byte>, b: seq<byte>, w: seq<byte>)
    requires In(h, s, b, w, Held(false, true)) && Apart(s, b) && !Apart(s, w) && (b == [] || w[0] != b[0])
    ensures CanDrop(h)
  {
    var c := s[0];
    var x := if b == [c, c] then w[0] else c;
    PassTwo(b, false, c, x);
    PassTwo(w, true, c, x);
    assert Pass(b, false, [c, x]).out == [c, x];
    var _ := TypeTwo(h, s, b, w, Held(false, true), x);
  }

  lemma SecondWaiting(h: Handler, s: seq<byte>, b: seq<byte>, w: seq<byte>)
    requires In(h, s, b, w, Held(true, false)) && Apart(s, b) && !Apart(s, w) && b != [] && w[0] == b[0]
    ensures CanDrop(h)
  {
    var c, d := s[0], w[0];
    PassTwo(b, true, c, c);
    assert Pass(b, true, [c, c]).out == [d, c, c];
    PassThree(w, false, d, c, c);
    PassTwo(w, true, c, c);
    var _ := TypeTwo(h, s, b, w, Held(true, false), c);
  }

  /** The third trigger ends in the second one's first byte. */
  lemma ThirdCutBySecond(h: Handler, s: seq<byte>, b: seq<byte>, w: seq<byte>)
    requires In(h, s, b, w, Held(false, false)) && !Apart(b, w)
    requires s == [] || (s[0] != w[0] && s[0] != b[0])
    ensures CanDrop(h)
  {
    var d, e := w[0], b[0];
    PassLast(b, false, d);
    PassLast(w, false, d);
    var g := TypeOne(h, s, b, w, Held(false, false), d);
    PassLast(b, false, e);
    var g2 := TypeOne(g, s, b, w, Held(false, true), e);
    var x := if b[1] == e then d else e;
    PassLast(b, true, x);
    PassTwo(w, true, e, x);
    var _ := TypeOne(g2, s, b, w, Held(true, true), x);
  }

  /** The third trigger starts like the first one, and the second does not. */
  lemma ThirdCutAround(h: Handler, s: seq<byte>, b: seq<byte>, w: seq<byte>)
    requires In(h, s, b, w, Held(false, false)) && Apart(s, b)
    requires s != [] && b != [] && w != [] && w[0] == s[0] != b[0]
    ensures CanDrop(h)
  {
    var c, d := s[0], b[0];
    PassLast(b, false, d);
    var g := TypeOne(h, s, b, w, Held(false, false), d);
    PassTwo(b, true, c, w[1]);
    if w[1] != d {
      assert Pass(b, true, [c, w[1]]).out == [d, c, w[1]];
      PassThree(w, false, d, c, w[1]);
      PassTwo(w, false, c, w[1]);
      var _ := TypeTwo(g, s, b, w, Held(true, false), w[1]);
    } else {
      assert Pass(b, true, [c, d]).out == [d, c];
      PassTwo(w, false, d, c);
      var g2 := TypeTwo(g, s, b, w, Held(true, false), d);
      PassTwo(b, true, c, c);
      assert Pass(b, true, [c, c]).out == [d, c, c];
      PassThree(w, true, d, c, c);
      var _ := TypeTwo(g2, s, b, w, Held(true, true), c);
    }
  }

  lemma IncompatibleDrops(h: Handler, s: seq<byte>, b: seq<byte>, w: seq<byte>)
    requires In(h, s, b, w, Held(false, false)) && !Compatible(s, b, w)
    ensures CanDrop(h)
  {
    if !Apart(s, b) {
      SecondCutShort(h, s, b, w);
    } else if !Apart(s, w) {
      ThirdCutShort(h, s, b, w);
    } else if s != [] && b != [] && w != [] && w[0] == s[0] != b[0] {
      ThirdCutAround(h, s, b, w);
    } else {
      ThirdCutBySecond(h, s, b, w);
    }
  }
}
