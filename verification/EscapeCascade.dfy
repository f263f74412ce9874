/** The session's three detectors in a row, behind a tracker of terminal escape sequences. */
module EscapeCascade {
  import opened Options
  import opened Octets
  import opened Sequences
  import opened Escapes
  import opened Measures

  const CSI: byte := 0x5b
  const SS3: byte := 0x4f

  datatype TermSeq = Normal | AfterEsc | InCsi | InSs3

  datatype Handler = Handler(snippet: Detector, bookmark: Detector, browser: Detector, term: TermSeq) {
    predicate Valid() {
      snippet.Valid() && bookmark.Valid() && browser.Valid()
    }

    /** Everything held back, oldest first. */
    function Held(): seq<byte> {
      browser.buffered + bookmark.buffered + snippet.buffered
    }
  }

  datatype SessionAction = Forward(bytes: seq<byte>) | Buffer | ShowSnippets | ShowSaveBookmark | ShowBrowser

  /** Is `b` part of an escape sequence, and what comes after it? */
  function Track(t: TermSeq, b: byte): (TermSeq, bool) {
    match t
    case Normal => if b == ESC then (AfterEsc, true) else (Normal, false)
    case AfterEsc => (if b == CSI then InCsi else if b == SS3 then InSs3 else Normal, true)
    case InCsi => (if 0x40 <= b <= 0x7e then Normal else InCsi, true)
    case InSs3 => (Normal, true)
  }

  /** A stage fed a flush of the stage before; on a trigger the rest of the flush is left over. */
  datatype Stage = Stage(d: Detector, fired: bool, out: seq<byte>, left: seq<byte>)

  function RunStage(d: Detector, bytes: seq<byte>, at: nat): Stage
    requires d.Valid()
    decreases |bytes|
  {
    if bytes == [] then Stage(d, false, [], [])
    else
      FeedConserves(d.(lastByteTime := None), Key(bytes[0], at));
      var (e, a) := FeedUntimed(d, Key(bytes[0], at));
      match a
      case Trigger => Stage(e, true, [], bytes[1..])
      case Hold => RunStage(e, bytes[1..], at)
      case Forward(f) =>
        var rest := RunStage(e, bytes[1..], at);
        rest.(out := f + rest.out)
  }

  /** One byte of a flush, somewhere in the middle. */
  lemma StageStep(d: Detector, bytes: seq<byte>, i: nat, at: nat)
    requires d.Valid() && i < |bytes|
    ensures var (e, a) := FeedUntimed(d, Key(bytes[i], at));
      e.Valid() &&
      RunStage(d, bytes[i..], at) ==
      if a.Trigger? then Stage(e, true, [], bytes[i + 1..])
      else var rest := RunStage(e, bytes[i + 1..], at); if a.Hold? then rest else rest.(out := a.bytes + rest.out)
  {
    FeedConserves(d.(lastByteTime := None), Key(bytes[i], at));
    DropDrop(bytes, i, 1);
  }

  /** One key, together with the bytes that a trigger of a later stage drops. */
  datatype Step = Step(h: Handler, action: SessionAction, dropped: seq<byte>)

  function AfterBookmark(h: Handler, snippet: Detector, b: Stage, at: nat): Step
    requires h.Valid()
  {
    if b.fired then Step(Handler(snippet, b.d, h.browser, h.term), ShowSaveBookmark, b.out + b.left)
    else
      var w := RunStage(h.browser, b.out, at);
      if w.fired then Step(Handler(snippet, b.d, w.d, h.term), ShowBrowser, w.out + w.left)
      else Step(Handler(snippet, b.d, w.d, h.term), if w.out == [] then Buffer else SessionAction.Forward(w.out), [])
  }

  function Cascade(h: Handler, snippet: Detector, flush: seq<byte>, at: nat): Step
    requires h.Valid()
  {
    AfterBookmark(h, snippet, RunStage(h.bookmark, flush, at), at)
  }

  function FeedKey(h: Handler, k: Key): (r: Step)
    requires h.Valid()
    ensures r.action.Forward? ==> r.action.bytes != []
  {
    var (t, inSequence) := Track(h.term, k.b);
    if inSequence then Step(h.(term := t), SessionAction.Forward([k.b]), [])
    else
      var (s, a) := Feed(h.snippet, k);
      match a
      case Trigger => Step(h.(snippet := s, term := t), ShowSnippets, [])
      case Hold => Step(h.(snippet := s, term := t), Buffer, [])
      case Forward(flush) => Cascade(h.(term := t), s, flush, k.at)
  }

  function ReplayAction(h: Handler, a: SessionAction): seq<byte> {
    match a
    case Forward(bytes) => bytes
    case Buffer => []
    case ShowSnippets => h.snippet.trigger
    case ShowSaveBookmark => h.bookmark.trigger
    case ShowBrowser => h.browser.trigger
  }

  // ---- one stage ----

  /** What a stage held and was fed, it holds, hands on, fires on or leaves over, in that order. */
  ghost predicate StageLedger(d: Detector, bytes: seq<byte>, r: Stage)
  {
    && r.d.Valid() && r.d.trigger == d.trigger
    && d.buffered + bytes == r.out + Ending(d, r) + r.left
    && (r.fired ==> r.d.buffered == [])
    && (!r.fired ==> r.left == [])
  }

  function Ending(d: Detector, r: Stage): seq<byte> {
    if r.fired then d.trigger else r.d.buffered
  }

  lemma {:induction false} StageConserves(d: Detector, bytes: seq<byte>, at: nat)
    requires d.Valid()
    ensures StageLedger(d, bytes, RunStage(d, bytes, at))
    decreases |bytes|
  {
    if bytes == [] {
      Unit(d.buffered);
    } else {
      var k := Key(bytes[0], at);
      var (e, a) := FeedUntimed(d, k);
      FeedConserves(d.(lastByteTime := None), k);
      match a
      case Trigger => LedgerOfTrigger(d, e, bytes);
      case Hold =>
        StageConserves(e, bytes[1..], at);
        LedgerPrepended(d, e, [], bytes, RunStage(e, bytes[1..], at));
        Unit(RunStage(e, bytes[1..], at).out);
      case Forward(f) =>
        StageConserves(e, bytes[1..], at);
        LedgerPrepended(d, e, f, bytes, RunStage(e, bytes[1..], at));
    }
  }

  lemma LedgerOfTrigger(d: Detector, e: Detector, bytes: seq<byte>)
    requires bytes != [] && e.Valid() && e.trigger == d.trigger && e.buffered == []
    requires d.trigger + e.buffered == d.buffered + [bytes[0]]
    ensures StageLedger(d, bytes, Stage(e, true, [], bytes[1..]))
  {
    First(d.buffered, bytes);
    Unit(d.trigger);
  }

  lemma LedgerPrepended(d: Detector, e: Detector, f: seq<byte>, bytes: seq<byte>, rest: Stage)
    requires bytes != [] && e.trigger == d.trigger && StageLedger(e, bytes[1..], rest)
    requires f + e.buffered == d.buffered + [bytes[0]]
    ensures StageLedger(d, bytes, rest.(out := f + rest.out))
  {
    First(d.buffered, bytes);
    Assoc(f, e.buffered, bytes[1..]);
    Assoc(f, rest.out, Ending(e, rest));
    Assoc(f, rest.out + Ending(e, rest), rest.left);
  }

  // ---- any triggers ----

  predicate SameTriggers(h: Handler, g: Handler) {
    && h.snippet.trigger == g.snippet.trigger
    && h.bookmark.trigger == g.bookmark.trigger
    && h.browser.trigger == g.browser.trigger
  }

  function HeldCount(h: Handler, f: Measure<byte>): nat {
    f(h.browser.buffered) + f(h.bookmark.buffered) + f(h.snippet.buffered)
  }

  /** Measuring bytes: step `r` puts out or holds what `h` held and the new byte, but for what it drops. */
  ghost predicate Accounts(h: Handler, b: byte, r: Step, f: Measure<byte>) {
    HeldCount(h, f) + f([b]) == f(ReplayAction(h, r.action)) + HeldCount(r.h, f) + f(r.dropped)
  }

  lemma StageCounts(d: Detector, bytes: seq<byte>, at: nat, f: Measure<byte>)
    requires d.Valid() && Additive(f)
    ensures var r := RunStage(d, bytes, at);
      && r.d.Valid() && r.d.trigger == d.trigger
      && (if r.fired then r.d.buffered == [] else r.left == [])
      && f(d.buffered) + f(bytes) == f(r.out) + f(Ending(d, r)) + f(r.left)
  {
    var r := RunStage(d, bytes, at);
    StageConserves(d, bytes, at);
    CountConcat(d.buffered, bytes, f);
    CountConcat(r.out + Ending(d, r), r.left, f);
    CountConcat(r.out, Ending(d, r), f);
  }

  lemma FeedCounts(d: Detector, k: Key, f: Measure<byte>)
    requires d.Valid() && Additive(f)
    ensures var (e, a) := Feed(d, k);
      && e.Valid() && e.trigger == d.trigger
      && f(d.buffered) + f([k.b]) == f(Replay(a, d.trigger)) + f(e.buffered)
  {
    FeedConserves(d, k);
    var (e, a) := Feed(d, k);
    CountConcat(d.buffered, [k.b], f);
    CountConcat(Replay(a, d.trigger), e.buffered, f);
  }

  lemma AfterBookmarkAccounts(h: Handler, s: Detector, b: Stage, k: Key, f: Measure<byte>)
    requires h.Valid() && b.d.Valid() && s.Valid() && Additive(f)
    requires s.trigger == h.snippet.trigger && b.d.trigger == h.bookmark.trigger
    requires if b.fired then b.d.buffered == [] else b.left == []
    requires HeldCount(h, f) + f([k.b])
      == f(h.browser.buffered) + f(b.out) + f(Ending(h.bookmark, b)) + f(b.left) + f(s.buffered)
    ensures AfterBookmark(h, s, b, k.at).h.Valid() && SameTriggers(h, AfterBookmark(h, s, b, k.at).h)
    ensures Accounts(h, k.b, AfterBookmark(h, s, b, k.at), f)
  {
    if b.fired {
      CountConcat(b.out, b.left, f);
    } else {
      var w := RunStage(h.browser, b.out, k.at);
      StageCounts(h.browser, b.out, k.at, f);
      CountConcat(b.out, b.left, f);
      CountConcat(w.out, w.left, f);
    }
  }

  /** One key, any triggers: exactly the `dropped` bytes are lost, whatever is measured. */
  lemma FeedKeyAccounts(h: Handler, k: Key, f: Measure<byte>)
    requires h.Valid() && Additive(f)
    ensures FeedKey(h, k).h.Valid() && SameTriggers(h, FeedKey(h, k).h)
    ensures Accounts(h, k.b, FeedKey(h, k), f)
  {
    CountConcat([], [], f);
    if !Track(h.term, k.b).1 {
      FeedCounts(h.snippet, k, f);
      var (s, a) := Feed(h.snippet, k);
      if a.Forward? {
        CascadeAccounts(h.(term := Track(h.term, k.b).0), s, a.bytes, k, f);
      }
    }
  }

  lemma CascadeAccounts(h: Handler, s: Detector, flush: seq<byte>, k: Key, f: Measure<byte>)
    requires h.Valid() && s.Valid() && s.trigger == h.snippet.trigger && Additive(f)
    requires f(h.snippet.buffered) + f([k.b]) == f(flush) + f(s.buffered)
    ensures var r := Cascade(h, s, flush, k.at); r.h.Valid() && SameTriggers(h, r.h) && Accounts(h, k.b, r, f)
  {
    StageCounts(h.bookmark, flush, k.at, f);
    AfterBookmarkAccounts(h, s, RunStage(h.bookmark, flush, k.at), k, f);
  }

  lemma HeldCounts(h: Handler, more: seq<byte>, f: Measure<byte>)
    requires Additive(f)
    ensures f(h.Held() + more) == HeldCount(h, f) + f(more) == f(more + h.Held())
  {
    CountConcat(h.browser.buffered, h.bookmark.buffered, f);
    CountConcat(h.browser.buffered + h.bookmark.buffered, h.snippet.buffered, f);
    CountConcat(h.Held(), more, f);
    CountConcat(more, h.Held(), f);
  }

  /**
   * A later detector fires although what it held and was handed is more than its trigger: the rest
   * is in neither the action nor any buffer.
   */
  predicate CutsShort(h: Handler, k: Key)
    requires h.Valid()
  {
    !Track(h.term, k.b).1 && Feed(h.snippet, k).1.Forward? &&
    var flush := Feed(h.snippet, k).1.bytes;
    var b := RunStage(h.bookmark, flush, k.at);
    if b.fired then h.bookmark.buffered + flush != h.bookmark.trigger
    else RunStage(h.browser, b.out, k.at).fired && h.browser.buffered + b.out != h.browser.trigger
  }

  /** A stage that fires passes over bytes exactly when it was given more than its trigger. */
  lemma FiringPassesOver(d: Detector, bytes: seq<byte>, at: nat)
    requires d.Valid() && RunStage(d, bytes, at).fired
    ensures var r := RunStage(d, bytes, at); r.out + r.left == [] <==> d.buffered + bytes == d.trigger
  {
    var r := RunStage(d, bytes, at);
    StageConserves(d, bytes, at);
    assert |d.buffered + bytes| == |r.out + r.left| + |d.trigger|;
    if r.out + r.left == [] {
      assert r.out == [] && r.left == [];
      assert [] + d.trigger + [] == d.trigger;
    }
  }

  lemma DropsExactly(h: Handler, k: Key)
    requires h.Valid()
    ensures FeedKey(h, k).dropped == [] <==> !CutsShort(h, k)
  {
    if !Track(h.term, k.b).1 && Feed(h.snippet, k).1.Forward? {
      var flush := Feed(h.snippet, k).1.bytes;
      var b := RunStage(h.bookmark, flush, k.at);
      if b.fired {
        FiringPassesOver(h.bookmark, flush, k.at);
      } else if RunStage(h.browser, b.out, k.at).fired {
        FiringPassesOver(h.browser, b.out, k.at);
      }
    }
  }

  /** A key conserves every byte, measured any way, exactly when no later detector cuts a flush short. */
  lemma KeyConservesExactly(h: Handler, k: Key)
    requires h.Valid()
    ensures var r := FeedKey(h, k);
      (forall f: Measure<byte> :: Additive(f) ==>
         HeldCount(h, f) + f([k.b]) == f(ReplayAction(h, r.action)) + HeldCount(r.h, f))
      <==> !CutsShort(h, k)
  {
    var r := FeedKey(h, k);
    DropsExactly(h, k);
    LengthAdditive<byte>();
    FeedKeyAccounts(h, k, Length());
    forall f: Measure<byte> | Additive(f)
      ensures r.dropped == [] ==> HeldCount(h, f) + f([k.b]) == f(ReplayAction(h, r.action)) + HeldCount(r.h, f)
    {
      FeedKeyAccounts(h, k, f);
      CountConcat([], [], f);
    }
  }

  /** What goes in comes out but for `lost`; so all of it comes out exactly when nothing is lost. */
  lemma ConservedExactly(before: seq<byte>, after: seq<byte>, lost: seq<byte>)
    requires forall f: Measure<byte> :: Additive(f) ==> f(before) == f(after) + f(lost)
    ensures multiset(before) == multiset(after) + multiset(lost)
    ensures multiset(before) == multiset(after) <==> lost == []
  {
    forall f: Measure<byte> | Additive(f) ensures f(before) == f(after + lost) {
      CountConcat(after, lost, f);
    }
    SameMultiset(before, after + lost);
    assert multiset(after + lost) == multiset(after) + multiset(lost);
    assert |multiset(lost)| == |lost|;
  }

  function NewHandler(snippet: seq<byte>, bookmark: seq<byte>, browser: seq<byte>): (h: Handler)
    ensures h.Valid() && h.Held() == []
  {
    Handler(NewDetector(snippet), NewDetector(bookmark), NewDetector(browser), Normal)
  }

  /** With triggers of other shapes bytes do get lost: here the flush 1, 2, 9 loses 1 and 9. */
  lemma OtherTriggersLoseBytes()
    ensures var h := NewHandler([1, 2, 3], [2], []);
      var h1 := FeedKey(h, Key(1, 0)).h;
      && h1.Valid()
      && FeedKey(h1, Key(2, 1_000_000_000)).h.Valid()
      && FeedKey(FeedKey(h1, Key(2, 1_000_000_000)).h, Key(9, 2_000_000_000))
         == Step(h, ShowSaveBookmark, [1, 9])
  {
    var h := NewHandler([1, 2, 3], [2], []);
    var h2 := FeedKey(FeedKey(h, Key(1, 0)).h, Key(2, 1_000_000_000)).h;
    assert h2 == h.(snippet := Detector([1, 2, 3], 2, [1, 2], Some(1_000_000_000)));
    assert [1, 2] + [9] == [1, 2, 9];
    LostAround(h.bookmark, 2_000_000_000);
  }

  lemma LostAround(d: Detector, at: nat)
    requires d == NewDetector([2])
    ensures RunStage(d, [1, 2, 9], at) == Stage(d, true, [1], [9])
  {
    var flush: seq<byte> := [1, 2, 9];
    assert flush[1..] == [2, 9] && flush[1..][1..] == [9];
    assert RunStage(d, flush[1..], at) == Stage(d, true, [], [9]);
  }

  // ---- triggers shaped like the defaults ----

  /** An absent trigger, or two bytes that start with the common byte `c`. */
  predicate Shaped(trigger: seq<byte>, c: byte) {
    trigger == [] || (|trigger| == 2 && trigger[0] == c)
  }

  predicate AllShaped(h: Handler, c: byte) {
    c != ESC && Shaped(h.snippet.trigger, c) && Shaped(h.bookmark.trigger, c) && Shaped(h.browser.trigger, c)
  }

  /** Only the first stage in use ever holds a byte between two keys. */
  predicate Quiet(h: Handler) {
    && (h.snippet.trigger != [] ==> h.bookmark.buffered == [])
    && (h.snippet.trigger != [] || h.bookmark.trigger != [] ==> h.browser.buffered == [])
  }

  /** What a stage in use hands on: nothing, a byte other than `c`, or `c` and one more byte. */
  predicate Handed(bytes: seq<byte>, c: byte) {
    bytes == [] || (|bytes| == 1 && bytes[0] != c) || (|bytes| == 2 && bytes[0] == c)
  }

  /** A stage in use that holds nothing holds the first byte of its trigger, and passes any other. */
  lemma RestingStep(d: Detector, b: byte, at: nat)
    requires d.Valid() && d.buffered == [] && |d.trigger| == 2
    ensures var (e, a) := FeedUntimed(d, Key(b, at));
      && e.Valid() && e.trigger == d.trigger
      && if b == d.trigger[0] then a.Hold? && e.buffered == [b] else a == Action.Forward([b]) && e.buffered == []
  {
    assert d.matched == 0;
    Unit([b]);
  }

  lemma HoldingStep(d: Detector, b: byte, at: nat)
    requires d.Valid() && |d.trigger| == 2 && d.buffered == [d.trigger[0]]
    ensures var (e, a) := FeedUntimed(d, Key(b, at));
      && e.Valid() && e.buffered == []
      && a == if b == d.trigger[1] then Trigger else Action.Forward([d.trigger[0], b])
  {
    assert d.matched == 1 by {
      assert |d.trigger[..d.matched]| == d.matched;
    }
    assert [d.trigger[0]] + [b] == [d.trigger[0], b];
  }

  /** A resting stage passes such bytes on as they are, or fires on exactly them. */
  lemma RestingStage(d: Detector, bytes: seq<byte>, c: byte, at: nat)
    requires d.Valid() && d.buffered == [] && Shaped(d.trigger, c) && Handed(bytes, c)
    ensures var r := RunStage(d, bytes, at);
      r.d.buffered == [] && r.left == [] && if r.fired then bytes == d.trigger && r.out == [] else r.out == bytes
  {
    if d.trigger == [] {
      AbsentStage(d, bytes, at);
      StageConserves(d, bytes, at);
    } else if bytes != [] {
      RestingStep(d, bytes[0], at);
      StageStep(d, bytes, 0, at);
      Sequences.Whole(bytes);
      var e := FeedUntimed(d, Key(bytes[0], at)).0;
      if |bytes| == 1 {
        assert RunStage(e, bytes[1..], at) == Stage(e, false, [], []);
        Unit(bytes);
        assert bytes == [bytes[0]];
      } else {
        RestingPair(d, e, bytes, at);
      }
    }
  }

  lemma RestingPair(d: Detector, e: Detector, bytes: seq<byte>, at: nat)
    requires |d.trigger| == 2 && |bytes| == 2 && bytes[0] == d.trigger[0]
    requires e.Valid() && e.trigger == d.trigger && e.buffered == [bytes[0]]
    ensures var r := RunStage(e, bytes[1..], at);
      r.d.buffered == [] && r.left == [] && if r.fired then bytes == d.trigger && r.out == [] else r.out == bytes
  {
    HoldingStep(e, bytes[1], at);
    StageStep(e, bytes, 1, at);
    Sequences.Whole(bytes);
    assert bytes == [bytes[0], bytes[1]];
    Unit(bytes);
  }

  /** The first stage in use, fed one byte. */
  lemma FirstStage(d: Detector, b: byte, c: byte, at: nat)
    requires d.Valid() && Shaped(d.trigger, c) && d.trigger != []
    ensures var r := RunStage(d, [b], at);
      Handed(r.out, c) && r.left == [] && (r.fired ==> r.out == []) && (r.out != [] ==> r.d.buffered == [])
  {
    assert [b][1..] == [];
  }

  lemma AbsentStage(d: Detector, bytes: seq<byte>, at: nat)
    requires d.Valid() && d.trigger == []
    ensures RunStage(d, bytes, at).out == bytes && !RunStage(d, bytes, at).fired
    ensures RunStage(d, bytes, at).d.buffered == []
    decreases |bytes|
  {
    if bytes != [] {
      AbsentStage(FeedUntimed(d, Key(bytes[0], at)).0, bytes[1..], at);
      assert bytes == [bytes[0]] + bytes[1..];
    }
  }

  lemma ShapedFlush(d: Detector, k: Key, c: byte)
    requires d.Valid() && Shaped(d.trigger, c) && d.trigger != []
    requires Feed(d, k).1.Forward?
    ensures Handed(Feed(d, k).1.bytes, c) && Feed(d, k).0.buffered == []
  {
  }

  /** What holds between two keys with such triggers. */
  ghost predicate Resting(h: Handler, c: byte) {
    h.Valid() && AllShaped(h, c) && Quiet(h)
  }

  lemma InTurn(w: seq<byte>, b: seq<byte>, flush: seq<byte>, mid: seq<byte>, restB: seq<byte>, out: seq<byte>,
      restW: seq<byte>)
    requires b + flush == mid + restB && w + mid == out + restW
    ensures w + b + flush == out + (restW + restB)
  {
    assert w + b + flush == w + (b + flush);
    assert w + (mid + restB) == (w + mid) + restB;
    assert (out + restW) + restB == out + (restW + restB);
  }

  lemma ShapedBookmark(h: Handler, flush: seq<byte>, k: Key, c: byte)
    requires Resting(h, c)
    requires if h.snippet.trigger != [] then Handed(flush, c) else flush == [k.b]
    ensures var b := RunStage(h.bookmark, flush, k.at);
      && b.d.Valid() && b.d.trigger == h.bookmark.trigger && b.left == []
      && h.bookmark.buffered + flush == b.out + Ending(h.bookmark, b)
      && (h.snippet.trigger != [] ==> b.d.buffered == [])
      && (b.fired ==> b.out == [] && h.browser.buffered == [] && b.d.buffered == [])
      && (b.out != [] ==> b.d.buffered == [])
      && if h.snippet.trigger != [] || h.bookmark.trigger != [] then Handed(b.out, c) else b.out == [k.b]
  {
    var b := RunStage(h.bookmark, flush, k.at);
    StageConserves(h.bookmark, flush, k.at);
    if h.snippet.trigger != [] {
      RestingStage(h.bookmark, flush, c, k.at);
    } else if h.bookmark.trigger != [] {
      FirstStage(h.bookmark, k.b, c, k.at);
    } else {
      AbsentStage(h.bookmark, flush, k.at);
    }
    assert b.out + Ending(h.bookmark, b) + [] == b.out + Ending(h.bookmark, b);
  }

  lemma ShapedBrowser(h: Handler, flush: seq<byte>, k: Key, c: byte)
    requires Resting(h, c)
    requires if h.snippet.trigger != [] || h.bookmark.trigger != [] then Handed(flush, c) else flush == [k.b]
    ensures var w := RunStage(h.browser, flush, k.at);
      && w.d.Valid() && w.d.trigger == h.browser.trigger && w.left == []
      && h.browser.buffered + flush == w.out + Ending(h.browser, w)
      && (h.snippet.trigger != [] || h.bookmark.trigger != [] ==> w.d.buffered == [])
      && (w.fired ==> w.out == [] && flush != [] && w.d.buffered == [])
  {
    var w := RunStage(h.browser, flush, k.at);
    StageConserves(h.browser, flush, k.at);
    if h.snippet.trigger != [] || h.bookmark.trigger != [] {
      RestingStage(h.browser, flush, c, k.at);
    } else if h.browser.trigger != [] {
      FirstStage(h.browser, k.b, c, k.at);
    } else {
      AbsentStage(h.browser, flush, k.at);
    }
    assert w.out + Ending(h.browser, w) + [] == w.out + Ending(h.browser, w);
  }

  /** With such triggers the cascade after the first detector drops nothing and changes no order. */
  lemma ShapedCascade(h: Handler, s: Detector, flush: seq<byte>, k: Key, c: byte)
    requires Resting(h, c) && s.Valid() && s.trigger == h.snippet.trigger && s.buffered == []
    requires if h.snippet.trigger != [] then Handed(flush, c) else flush == [k.b]
    ensures var r := Cascade(h, s, flush, k.at);
      && Resting(r.h, c) && r.dropped == [] && SameTriggers(h, r.h) && r.h.term == h.term
      && h.browser.buffered + h.bookmark.buffered + flush == ReplayAction(h, r.action) + r.h.Held()
  {
    var b := RunStage(h.bookmark, flush, k.at);
    ShapedBookmark(h, flush, k, c);
    if b.fired {
      var r := Step(Handler(s, b.d, h.browser, h.term), ShowSaveBookmark, []);
      assert r.h.Held() == [];
      assert h.browser.buffered + h.bookmark.buffered + flush == h.bookmark.buffered + flush;
    } else {
      ShapedForwarding(h, s, flush, b, k, c);
    }
  }

  /** ... when the second detector does not fire. */
  lemma ShapedForwarding(h: Handler, s: Detector, flush: seq<byte>, b: Stage, k: Key, c: byte)
    requires Resting(h, c) && s.Valid() && s.trigger == h.snippet.trigger && s.buffered == []
    requires !b.fired && b.d.Valid() && b.d.trigger == h.bookmark.trigger
    requires h.bookmark.buffered + flush == b.out + b.d.buffered
    requires h.snippet.trigger != [] ==> b.d.buffered == []
    requires b.out != [] ==> b.d.buffered == []
    requires if h.snippet.trigger != [] || h.bookmark.trigger != [] then Handed(b.out, c) else b.out == [k.b]
    ensures var r := AfterBookmark(h, s, b, k.at);
      && Resting(r.h, c) && r.dropped == [] && SameTriggers(h, r.h) && r.h.term == h.term
      && h.browser.buffered + h.bookmark.buffered + flush == ReplayAction(h, r.action) + r.h.Held()
  {
    var w := RunStage(h.browser, b.out, k.at);
    ShapedBrowser(h, b.out, k, c);
    InTurn(h.browser.buffered, h.bookmark.buffered, flush, b.out, b.d.buffered, w.out, Ending(h.browser, w));
    Unit(w.d.buffered + b.d.buffered);
  }

  lemma HeldOfFirst(h: Handler, c: byte)
    requires Resting(h, c) && h.snippet.trigger != []
    ensures h.Held() == h.snippet.buffered
  {
  }

  lemma ShapedForward(h: Handler, k: Key, c: byte)
    requires Resting(h, c) && !Track(h.term, k.b).1 && Feed(h.snippet, k).1.Forward?
    ensures var r := FeedKey(h, k);
      && Resting(r.h, c) && r.dropped == [] && SameTriggers(h, r.h)
      && h.Held() + [k.b] == ReplayAction(h, r.action) + r.h.Held()
  {
    FeedConserves(h.snippet, k);
    var (s, a) := Feed(h.snippet, k);
    if h.snippet.trigger != [] {
      ShapedFlush(h.snippet, k, c);
    }
    assert s.buffered == [];
    assert a.bytes == h.snippet.buffered + [k.b] by {
      assert a.bytes + s.buffered == a.bytes;
    }
    Assoc(h.browser.buffered + h.bookmark.buffered, h.snippet.buffered, [k.b]);
    ShapedCascade(h.(term := Track(h.term, k.b).0), s, a.bytes, k, c);
  }

  /** A key that is no part of an escape sequence keeps the order of all bytes. */
  lemma ShapedKeyInOrder(h: Handler, k: Key, c: byte)
    requires Resting(h, c)
    ensures var r := FeedKey(h, k);
      && Resting(r.h, c) && r.dropped == [] && SameTriggers(h, r.h)
      && (!Track(h.term, k.b).1 ==> h.Held() + [k.b] == ReplayAction(h, r.action) + r.h.Held())
  {
    if !Track(h.term, k.b).1 {
      if Feed(h.snippet, k).1.Forward? {
        ShapedForward(h, k, c);
      } else {
        ShapedMatch(h, k, c);
      }
    }
  }

  lemma ShapedMatch(h: Handler, k: Key, c: byte)
    requires Resting(h, c) && !Track(h.term, k.b).1 && !Feed(h.snippet, k).1.Forward?
    ensures var r := FeedKey(h, k);
      && Resting(r.h, c) && r.dropped == [] && SameTriggers(h, r.h)
      && h.Held() + [k.b] == ReplayAction(h, r.action) + r.h.Held()
  {
    FeedConserves(h.snippet, k);
    HeldOfFirst(h, c);
    var g := h.(snippet := Feed(h.snippet, k).0, term := Track(h.term, k.b).0);
    assert FeedKey(h, k).h == g;
    HeldOfFirst(g, c);
  }

  // ---- runs ----

  /** A run so far: the handler, what it put out (with the bytes of each trigger) and what it dropped. */
  datatype Trace = Trace(h: Handler, out: seq<byte>, dropped: seq<byte>)

  function Extend(t: Trace, k: Key): Trace
    requires t.h.Valid()
  {
    var r := FeedKey(t.h, k);
    Trace(r.h, t.out + ReplayAction(t.h, r.action), t.dropped + r.dropped)
  }

  function Run(h: Handler, keys: seq<Key>): (t: Trace)
    requires h.Valid()
    ensures t.h.Valid()
    decreases |keys|
  {
    if keys == [] then Trace(h, [], [])
    else
      var t := Run(h, keys[..|keys| - 1]);
      LengthAdditive<byte>();
      FeedKeyAccounts(t.h, keys[|keys| - 1], Length());
      Extend(t, keys[|keys| - 1])
  }

  lemma RunSnoc(h: Handler, keys: seq<Key>, k: Key)
    requires h.Valid()
    ensures Run(h, keys + [k]) == Extend(Run(h, keys), k)
    ensures BytesOf(keys + [k]) == BytesOf(keys) + [k.b]
  {
    assert (keys + [k])[..|keys|] == keys;
  }

  lemma ExtendAccounts(t: Trace, k: Key, held: nat, input: seq<byte>, f: Measure<byte>)
    requires t.h.Valid() && Additive(f)
    requires held + f(input) == f(t.out) + HeldCount(t.h, f) + f(t.dropped)
    ensures var u := Extend(t, k); held + f(input + [k.b]) == f(u.out) + HeldCount(u.h, f) + f(u.dropped)
  {
    var r := FeedKey(t.h, k);
    FeedKeyAccounts(t.h, k, f);
    CountConcat(input, [k.b], f);
    CountConcat(t.out, ReplayAction(t.h, r.action), f);
    CountConcat(t.dropped, r.dropped, f);
  }

  /** Any run with any triggers: what came in is what went out, is held, or was dropped. */
  lemma {:induction false} RunAccounts(h: Handler, keys: seq<Key>, f: Measure<byte>)
    requires h.Valid() && Additive(f)
    ensures var t := Run(h, keys); HeldCount(h, f) + f(BytesOf(keys)) == f(t.out) + HeldCount(t.h, f) + f(t.dropped)
    decreases |keys|
  {
    if keys == [] {
      CountConcat([], [], f);
    } else {
      var front, last := keys[..|keys| - 1], keys[|keys| - 1];
      assert keys == front + [last];
      RunAccounts(h, front, f);
      RunSnoc(h, front, last);
      ExtendAccounts(Run(h, front), last, HeldCount(h, f), BytesOf(front), f);
    }
  }

  /** No key of the run makes a later detector cut a flush short. */
  predicate NeverCutShort(h: Handler, keys: seq<Key>)
    requires h.Valid()
    decreases |keys|
  {
    keys == [] ||
    (NeverCutShort(h, keys[..|keys| - 1]) && !CutsShort(Run(h, keys[..|keys| - 1]).h, keys[|keys| - 1]))
  }

  lemma {:induction false} RunDropsExactly(h: Handler, keys: seq<Key>)
    requires h.Valid()
    ensures Run(h, keys).dropped == [] <==> NeverCutShort(h, keys)
    decreases |keys|
  {
    if keys != [] {
      var front, last := keys[..|keys| - 1], keys[|keys| - 1];
      RunDropsExactly(h, front);
      DropsExactly(Run(h, front).h, last);
    }
  }

  /**
   * Any triggers, any run: the bytes typed are those put out, held or dropped, each as often; and
   * none is dropped exactly when no key makes a later detector cut a flush short.
   */
  lemma RunConservesExactly(h: Handler, keys: seq<Key>)
    requires h.Valid()
    ensures var t, typed := Run(h, keys), h.Held() + BytesOf(keys);
      && multiset(typed) == multiset(t.out + t.h.Held()) + multiset(t.dropped)
      && (multiset(typed) == multiset(t.out + t.h.Held()) <==> NeverCutShort(h, keys))
  {
    var t, typed := Run(h, keys), h.Held() + BytesOf(keys);
    RunDropsExactly(h, keys);
    forall f: Measure<byte> | Additive(f) ensures f(typed) == f(t.out + t.h.Held()) + f(t.dropped) {
      RunAccounts(h, keys, f);
      HeldCounts(h, BytesOf(keys), f);
      HeldCounts(t.h, t.out, f);
    }
    ConservedExactly(typed, t.out + t.h.Held(), t.dropped);
  }

  // ---- order ----

  /** No ESC is typed while a byte is held. */
  ghost predicate Undisturbed(h: Handler, keys: seq<Key>)
    requires h.Valid()
    decreases |keys|
  {
    keys == [] ||
    (Undisturbed(h, keys[..|keys| - 1]) && !Overtakes(Run(h, keys[..|keys| - 1]).h, keys[|keys| - 1]))
  }

  ghost predicate Overtakes(h: Handler, k: Key) {
    h.term.Normal? && k.b == ESC && h.Held() != []
  }

  lemma UndisturbedSnoc(h: Handler, keys: seq<Key>, k: Key)
    requires h.Valid()
    ensures Undisturbed(h, keys + [k]) <==> Undisturbed(h, keys) && !Overtakes(Run(h, keys).h, k)
  {
    assert (keys + [k])[..|keys|] == keys;
  }

  /** The output already shows a byte that differs from the input at its position. */
  ghost predicate Diverges(out: seq<byte>, input: seq<byte>) {
    exists p :: 0 <= p < |out| && p < |input| && out[p] != input[p]
  }

  lemma DivergesForever(out: seq<byte>, input: seq<byte>, more: seq<byte>, tail: seq<byte>)
    requires Diverges(out, input)
    ensures Diverges(out + more, input + tail)
  {
    var p :| 0 <= p < |out| && p < |input| && out[p] != input[p];
    assert (out + more)[p] != (input + tail)[p];
  }

  lemma OvertakenDiverges(out: seq<byte>, held: seq<byte>, input: seq<byte>, c: byte)
    requires out + held == input && held != [] && held[0] != c
    ensures Diverges(out + [c], input + [c])
  {
    assert (out + [c])[|out|] != (input + [c])[|out|];
  }

  /** A held byte is the common first byte of the triggers, never an ESC. */
  lemma HeldIsCommon(h: Handler, c: byte)
    requires Resting(h, c) && h.Held() != []
    ensures h.Held()[0] == c
  {
    assert h.snippet.buffered != [] ==> h.snippet.trigger[0] == c;
    assert h.bookmark.buffered != [] ==> h.bookmark.trigger[0] == c;
    assert h.browser.buffered != [] ==> h.browser.trigger[0] == c;
  }

  /** So far nothing was dropped or reordered, and nothing is held inside an escape sequence. */
  ghost predicate Orderly(t: Trace, input: seq<byte>) {
    t.out + t.h.Held() == input && (t.h.term.Normal? || t.h.Held() == [])
  }

  lemma ExtendOrderly(t: Trace, k: Key, input: seq<byte>, c: byte)
    requires Resting(t.h, c) && Orderly(t, input)
    ensures var u := Extend(t, k);
      if Overtakes(t.h, k) then Diverges(u.out, input + [k.b]) else Orderly(u, input + [k.b])
  {
    ShapedKeyInOrder(t.h, k, c);
    var r := FeedKey(t.h, k);
    if Overtakes(t.h, k) {
      HeldIsCommon(t.h, c);
      OvertakenDiverges(t.out, t.h.Held(), input, ESC);
    } else {
      Assoc(t.out, ReplayAction(t.h, r.action), r.h.Held());
      Assoc(t.out, t.h.Held(), [k.b]);
    }
  }

  /** With shaped triggers no run drops anything; it stays orderly as long as it is undisturbed. */
  lemma {:induction false} ShapedRun(h: Handler, keys: seq<Key>, c: byte)
    requires Resting(h, c) && h.Held() == []
    ensures var t := Run(h, keys);
      && Resting(t.h, c) && t.dropped == []
      && if Undisturbed(h, keys) then Orderly(t, BytesOf(keys)) else Diverges(t.out, BytesOf(keys))
    decreases |keys|
  {
    if keys != [] {
      var front, last := keys[..|keys| - 1], keys[|keys| - 1];
      assert keys == front + [last];
      ShapedRun(h, front, c);
      var t := Run(h, front);
      RunSnoc(h, front, last);
      UndisturbedSnoc(h, front, last);
      ShapedKeyInOrder(t.h, last, c);
      if Undisturbed(h, front) {
        ExtendOrderly(t, last, BytesOf(front), c);
      } else {
        DivergesForever(t.out, BytesOf(front), ReplayAction(t.h, FeedKey(t.h, last).action), [last.b]);
      }
    }
  }

  /**
   * With triggers shaped like the defaults nothing is dropped, and the bytes come through in order
   * exactly when no ESC is typed while a byte is held back.
   */
  lemma OrderExactly(snippet: seq<byte>, bookmark: seq<byte>, browser: seq<byte>, c: byte, keys: seq<Key>)
    requires c != ESC && Shaped(snippet, c) && Shaped(bookmark, c) && Shaped(browser, c)
    ensures var h := NewHandler(snippet, bookmark, browser);
      var t := Run(h, keys);
      t.dropped == [] && (t.out + t.h.Held() == BytesOf(keys) <==> Undisturbed(h, keys))
  {
    var h := NewHandler(snippet, bookmark, browser);
    ShapedRun(h, keys, c);
    var t := Run(h, keys);
    if !Undisturbed(h, keys) {
      DivergesForever(t.out, BytesOf(keys), t.h.Held(), []);
      assert BytesOf(keys) + [] == BytesOf(keys);
    }
  }

  /** In any order, every byte comes through, or is held, as often as it was typed. */
  lemma ShapedConserves(snippet: seq<byte>, bookmark: seq<byte>, browser: seq<byte>, c: byte, keys: seq<Key>)
    requires c != ESC && Shaped(snippet, c) && Shaped(bookmark, c) && Shaped(browser, c)
    ensures var t := Run(NewHandler(snippet, bookmark, browser), keys);
      multiset(BytesOf(keys)) == multiset(t.out + t.h.Held())
  {
    var h := NewHandler(snippet, bookmark, browser);
    ShapedRun(h, keys, c);
    RunConservesExactly(h, keys);
    Unit(BytesOf(keys));
  }

  // ---- escape sequences do not interfere ----

  function TrackAll(t: TermSeq, keys: seq<Key>): TermSeq
    decreases |keys|
  {
    if keys == [] then t else Track(TrackAll(t, keys[..|keys| - 1]), keys[|keys| - 1].b).0
  }

  /** The keys that are no part of an escape sequence, with their times. */
  function Erased(t: TermSeq, keys: seq<Key>): seq<Key>
    decreases |keys|
  {
    if keys == [] then []
    else
      var front, last := keys[..|keys| - 1], keys[|keys| - 1];
      if Track(TrackAll(t, front), last.b).1 then Erased(t, front) else Erased(t, front) + [last]
  }

  lemma FeedIgnoresSequences(h: Handler, k: Key)
    requires h.Valid()
    ensures if Track(h.term, k.b).1
      then FeedKey(h, k) == Step(h.(term := Track(h.term, k.b).0), SessionAction.Forward([k.b]), [])
      else FeedKey(h, k) == FeedKey(h.(term := Normal), k) && FeedKey(h, k).h.term.Normal?
  {
  }

  /** `h` is `g`, which has seen no escape sequence, but for the tracker, which is in state `t`. */
  predicate SameDetectors(h: Handler, g: Handler, t: TermSeq) {
    h.Valid() && g.Valid() && g.term.Normal? && h == g.(term := t)
  }

  lemma SameDetectorsStep(h: Handler, g: Handler, t: TermSeq, k: Key)
    requires SameDetectors(h, g, t)
    ensures FeedKey(h, k).h.Valid() && FeedKey(g, k).h.Valid()
    ensures SameDetectors(FeedKey(h, k).h, if Track(t, k.b).1 then g else FeedKey(g, k).h, Track(t, k.b).0)
  {
    LengthAdditive<byte>();
    FeedKeyAccounts(h, k, Length());
    FeedKeyAccounts(g, k, Length());
    FeedIgnoresSequences(h, k);
  }

  lemma RunHandler(h: Handler, keys: seq<Key>, k: Key)
    requires h.Valid()
    ensures Run(h, keys + [k]).h == FeedKey(Run(h, keys).h, k).h
  {
    RunSnoc(h, keys, k);
  }

  lemma SameDetectorsSnoc(h: Handler, keys: seq<Key>, g: Handler, erased: seq<Key>, t: TermSeq, k: Key)
    requires h.Valid() && g.Valid() && SameDetectors(Run(h, keys).h, Run(g, erased).h, t)
    ensures var (u, inSequence) := Track(t, k.b);
      SameDetectors(Run(h, keys + [k]).h, Run(g, if inSequence then erased else erased + [k]).h, u)
  {
    SameDetectorsStep(Run(h, keys).h, Run(g, erased).h, t, k);
    RunHandler(h, keys, k);
    RunHandler(g, erased, k);
  }

  /** The detectors go through a run as if the bytes of escape sequences had not been typed. */
  lemma {:induction false} SameAsErased(h: Handler, keys: seq<Key>)
    requires h.Valid()
    ensures SameDetectors(Run(h, keys).h, Run(h.(term := Normal), Erased(h.term, keys)).h, TrackAll(h.term, keys))
    decreases |keys|
  {
    if keys != [] {
      var front, last := keys[..|keys| - 1], keys[|keys| - 1];
      SameAsErased(h, front);
      SameDetectorsSnoc(h, front, h.(term := Normal), Erased(h.term, front), TrackAll(h.term, front), last);
      Snoc(keys);
    }
  }

  /**
   * Any triggers, any run: the next byte is forwarded verbatim when it belongs to an escape
   * sequence, and otherwise causes the action it would cause had no such byte been typed.
   */
  lemma SequencesDoNotInterfere(h: Handler, keys: seq<Key>, k: Key)
    requires h.Valid()
    ensures FeedKey(Run(h, keys).h, k).action ==
      if Track(TrackAll(h.term, keys), k.b).1 then SessionAction.Forward([k.b])
      else FeedKey(Run(h.(term := Normal), Erased(h.term, keys)).h, k).action
  {
    SameAsErased(h, keys);
    FeedIgnoresSequences(Run(h, keys).h, k);
  }
}
