/**
 * What the proxy loop does with passwords, told from the events: a typed sudo password is saved, a
 * stored one is filled in, and a stored one that is rejected is removed.
 */
module ProxyRuns {
  import opened Options
  import opened Octets
  import opened Utf8
  import opened Sequences
  import opened PasswordPrompt
  import opened ProxyPassword

  lemma {:induction false} AfterConcat(cfg: Config, s: State, a: seq<Event>, b: seq<Event>)
    ensures After(cfg, s, a + b) == After(cfg, After(cfg, s, a), b)
    decreases |b|
  {
    if b == [] {
      Unit(a);
    } else {
      ConcatFront(a, b);
      AfterConcat(cfg, s, a, b[..|b| - 1]);
    }
  }

  lemma AfterOne(cfg: Config, s: State, e: Event)
    ensures After(cfg, s, [e]) == Step(cfg, s, e).0
  {
    AfterSnoc(cfg, s, [], e);
    Unit([e]);
  }

  // ---- prompts ----

  /**
   * What an output is taken for: nothing if it holds no text, else by what the rolling buffer holds
   * with it, the sudo patterns going first.
   */
  lemma KindExactly(cfg: Config, s: State, data: seq<byte>)
    ensures var heard := Tail(s.buffer + Extract(data));
      && (Kind(cfg, s, data).Sudo? <==> Extract(data) != [] && cfg.patterns.sudo(heard))
      && (Kind(cfg, s, data).Generic? <==>
            Extract(data) != [] && !cfg.patterns.sudo(heard) && cfg.patterns.generic(heard))
  {
  }

  /** Nothing is asked, captured or pending. */
  predicate Idle(s: State) {
    s.phase.Running? && !s.awaitingConfirm && s.capturing.None? && s.pendingSave.None?
  }

  function Outputs(chunks: seq<seq<byte>>): (run: seq<Event>)
    ensures |run| == |chunks|
  {
    seq(|chunks|, i requires 0 <= i < |chunks| => Output(chunks[i]))
  }

  /** None of the outputs, coming after `s`, shows a prompt. */
  predicate Silent(cfg: Config, s: State, chunks: seq<seq<byte>>)
    decreases |chunks|
  {
    chunks == [] ||
    (Silent(cfg, s, chunks[..|chunks| - 1]) &&
     Kind(cfg, After(cfg, s, Outputs(chunks[..|chunks| - 1])), chunks[|chunks| - 1]).NoPrompt?)
  }

  lemma OutputsSnoc(chunks: seq<seq<byte>>)
    requires chunks != []
    ensures Outputs(chunks) == Outputs(chunks[..|chunks| - 1]) + [Output(chunks[|chunks| - 1])]
  {
  }

  lemma {:induction false} FedAllSnoc(buffer: seq<byte>, feeds: seq<seq<byte>>, last: seq<byte>)
    ensures FedAll(buffer, feeds + [last]) == FedOne(FedAll(buffer, feeds), last)
    decreases |feeds|
  {
    if feeds != [] {
      DropWithin(feeds, [last], 1);
      FedAllSnoc(FedOne(buffer, feeds[0]), feeds[1..], last);
    } else {
      Unit([last]);
      assert FedAll(buffer, [last]) == FedOne(buffer, last);
    }
  }

  lemma {:induction false} AllTextSnoc(feeds: seq<seq<byte>>, last: seq<byte>)
    ensures AllText(feeds + [last]) == AllText(feeds) + Extract(last)
    decreases |feeds|
  {
    if feeds != [] {
      DropWithin(feeds, [last], 1);
      AllTextSnoc(feeds[1..], last);
      Assoc(Extract(feeds[0]), AllText(feeds[1..]), Extract(last));
    } else {
      Unit([last]);
      Unit(Extract(last));
      assert AllText([last]) == Extract(last) + AllText([]);
    }
  }

  /** Output without a prompt only fills the buffer, and shows that an auto-fill worked. */
  lemma {:induction false} SilenceOnlyFeeds(cfg: Config, s: State, chunks: seq<seq<byte>>)
    requires Idle(s) && Silent(cfg, s, chunks)
    ensures var t := After(cfg, s, Outputs(chunks));
      t == s.(buffer := FedAll(s.buffer, chunks),
              autofillPendingVerify := if chunks == [] then s.autofillPendingVerify else false)
    decreases |chunks|
  {
    if chunks != [] {
      var front, last := chunks[..|chunks| - 1], chunks[|chunks| - 1];
      SilenceOnlyFeeds(cfg, s, front);
      OutputsSnoc(chunks);
      AfterSnoc(cfg, s, Outputs(front), Output(last));
      FedAllSnoc(s.buffer, front, last);
      Snoc(chunks);
    }
  }

  /**
   * From an empty buffer, a prompt is seen in the text of all output so far, however it was cut:
   * the next output is taken for a sudo prompt exactly when it holds text and a sudo pattern finds
   * the tail of all of it.
   */
  lemma PromptInAllText(cfg: Config, s: State, chunks: seq<seq<byte>>, data: seq<byte>)
    requires Idle(s) && s.buffer == [] && Silent(cfg, s, chunks)
    ensures Kind(cfg, After(cfg, s, Outputs(chunks)), data).Sudo? <==>
      Extract(data) != [] && cfg.patterns.sudo(Tail(AllText(chunks + [data])))
  {
    SilenceOnlyFeeds(cfg, s, chunks);
    KindExactly(cfg, After(cfg, s, Outputs(chunks)), data);
    BufferDependsOnTextOnly(chunks, chunks);
    FedAllIsTail([], chunks);
    AllTextSnoc(chunks, data);
    AllTextIsText(chunks);
    ExtractIsText(data);
    TailOfTail(AllText(chunks), Extract(data));
  }

  lemma {:induction false} AllTextIsText(feeds: seq<seq<byte>>)
    ensures IsText(AllText(feeds))
  {
    if feeds != [] {
      ExtractIsText(feeds[0]);
      AllTextIsText(feeds[1..]);
      TextConcat(Extract(feeds[0]), AllText(feeds[1..]));
    }
  }

  // ---- typing ----

  /** All the bytes typed. */
  function Typed(run: seq<Event>): seq<byte>
    decreases |run|
  {
    if run == [] then []
    else
      var front, last := Typed(run[..|run| - 1]), run[|run| - 1];
      if last.Input? then front + last.bytes else front
  }

  /** Remote output, and input that the remote side takes. */
  predicate Flows(run: seq<Event>) {
    forall e :: e in run ==> e.Output? || (e.Input? && e.sent)
  }

  predicate NoEnter(bytes: seq<byte>) {
    forall b :: b in bytes ==> b != 0x0d && b != 0x0a
  }

  lemma {:induction false} EndsExactly(text: seq<byte>, bytes: seq<byte>)
    ensures Type(text, bytes).ended <==> !NoEnter(bytes)
    decreases |bytes|
  {
    if bytes != [] {
      var b, rest := bytes[0], bytes[1..];
      assert b in bytes;
      assert forall x :: x in bytes <==> x == b || x in rest;
      EndsExactly(if text == [] then [] else text[..|text| - 1], rest);
      EndsExactly(if b >= 0x20 then text + [b] else text, rest);
    }
  }

  predicate IsShown(b: byte) {
    b >= 0x20 && b != 0x7f
  }

  lemma {:induction false} TypeShown(text: seq<byte>, bytes: seq<byte>)
    requires forall b :: b in bytes ==> IsShown(b)
    ensures Type(text, bytes) == Line(text + bytes, false)
    decreases |bytes|
  {
    if bytes == [] {
      Unit(text);
    } else {
      assert IsShown(bytes[0]) by { assert bytes[0] in bytes; }
      assert forall b :: b in bytes[1..] ==> b in bytes;
      TypeShown(text + [bytes[0]], bytes[1..]);
      First(text, bytes);
    }
  }

  lemma {:induction false} TypeRubouts(text: seq<byte>, wrong: seq<byte>, rubouts: seq<byte>)
    requires forall b :: b in rubouts ==> b == 0x7f || b == 0x08
    requires |rubouts| == |wrong|
    ensures Type(text + wrong, rubouts) == Line(text, false)
    decreases |rubouts|
  {
    if rubouts == [] {
      Unit(text);
    } else {
      ConcatFront(text, wrong);
      assert rubouts[0] in rubouts && forall b :: b in rubouts[1..] ==> b in rubouts;
      TypeRubouts(text, wrong[..|wrong| - 1], rubouts[1..]);
    }
  }

  /**
   * A line as it is edited: shown bytes are kept, DEL and backspace take back one each, other
   * control bytes count for nothing, Enter ends it and nothing after it matters.
   */
  lemma EditedLine(a: seq<byte>, wrong: seq<byte>, rubouts: seq<byte>, control: byte, b: seq<byte>, end: byte,
                   rest: seq<byte>)
    requires forall x :: x in a || x in wrong || x in b ==> IsShown(x)
    requires (forall x :: x in rubouts ==> x == 0x7f || x == 0x08) && |rubouts| == |wrong|
    requires control < 0x20 && control != 0x08 && control != 0x0a && control != 0x0d
    requires end == 0x0d || end == 0x0a
    ensures Type([], a + wrong + rubouts + [control] + b + ([end] + rest)) == Line(a + b, true)
  {
    EditedBack(a, wrong, rubouts);
    TypeMore([], a + wrong + rubouts, [control]);
    assert Type(a, [control]) == Line(a, false);
    TypeMore([], a + wrong + rubouts + [control], b);
    TypeShown(a, b);
    TypeMore([], a + wrong + rubouts + [control] + b, [end] + rest);
  }

  lemma EditedBack(a: seq<byte>, wrong: seq<byte>, rubouts: seq<byte>)
    requires forall x :: x in a || x in wrong ==> IsShown(x)
    requires (forall x :: x in rubouts ==> x == 0x7f || x == 0x08) && |rubouts| == |wrong|
    ensures Type([], a + wrong + rubouts) == Line(a, false)
  {
    TypeShown([], a);
    Unit(a);
    TypeMore([], a, wrong);
    TypeShown(a, wrong);
    TypeMore([], a + wrong, rubouts);
    TypeRubouts(a, wrong, rubouts);
  }

  /** There is nothing to take back from an empty line. */
  lemma {:induction false} NothingToTakeBack(rubouts: seq<byte>)
    requires forall x :: x in rubouts ==> x == 0x7f || x == 0x08
    ensures Type([], rubouts) == Line([], false)
    decreases |rubouts|
  {
    if rubouts != [] {
      assert rubouts[0] in rubouts && forall x :: x in rubouts[1..] ==> x in rubouts;
      NothingToTakeBack(rubouts[1..]);
    }
  }

  // ---- a sudo password is typed ----

  /** A sudo prompt is about to be answered by typing. */
  predicate Capturing(s: State) {
    s.phase.Running? && !s.awaitingConfirm && s.capturing == Some([]) && s.pendingSave.None? && s.stored.None?
  }

  /** No password is stored, or the stored one has just been filled in. */
  predicate NothingToOffer(s: State) {
    && s.phase.Running? && !s.awaitingConfirm && s.capturing.None?
    && (s.stored.None? || (s.pendingSave.None? && s.autofillPendingVerify))
  }

  /** A sudo prompt starts a capture; it discards a pending password and a stored one just filled in. */
  lemma SudoCaptures(cfg: Config, s: State, data: seq<byte>)
    requires cfg.named && NothingToOffer(s) && Kind(cfg, s, data).Sudo?
    ensures Capturing(Step(cfg, s, Output(data)).0)
    ensures Step(cfg, s, Output(data)).1 == if s.stored.Some? then Removed else Nothing
    ensures Step(cfg, s, Output(data)).0.buffer
      == if s.stored.Some? || s.pendingSave.Some? then [] else Tail(s.buffer + Extract(data))
  {
  }

  lemma {:induction false} KeepsCapturing(cfg: Config, s: State, typing: seq<Event>)
    requires Capturing(s) && Flows(typing) && NoEnter(Typed(typing))
    ensures After(cfg, s, typing) == s.(capturing := Some(Type([], Typed(typing)).text))
    decreases |typing|
  {
    if typing != [] {
      var front, last := typing[..|typing| - 1], typing[|typing| - 1];
      assert last in typing && forall e :: e in front ==> e in typing;
      assert NoEnter(Typed(front)) by {
        assert forall b :: b in Typed(front) ==> b in Typed(typing);
      }
      KeepsCapturing(cfg, s, front);
      EndsExactly([], Typed(front));
      EndsExactly([], Typed(typing));
      if last.Input? {
        TypeMore([], Typed(front), last.bytes);
      }
    }
  }

  /** While a password is pending, any output but a sudo prompt is only listened to. */
  lemma PendingListens(cfg: Config, s: State, data: seq<byte>)
    requires !s.awaitingConfirm && s.capturing.None? && s.pendingSave.Some? && !Kind(cfg, s, data).Sudo?
    ensures Step(cfg, s, Output(data)) == (s.(buffer := FedOne(s.buffer, data)), Nothing)
  {
  }

  /** None of the outputs in `run`, coming after `s`, shows a sudo prompt. */
  predicate NoSudo(cfg: Config, s: State, run: seq<Event>)
    decreases |run|
  {
    run == [] ||
    var front, last := run[..|run| - 1], run[|run| - 1];
    NoSudo(cfg, s, front) && (last.Output? ==> !Kind(cfg, After(cfg, s, front), last.data).Sudo?)
  }

  lemma {:induction false} KeepsPending(cfg: Config, s: State, waiting: seq<Event>)
    requires s.phase.Running? && !s.awaitingConfirm && s.capturing.None? && s.pendingSave.Some?
    requires Flows(waiting) && NoSudo(cfg, s, waiting)
    ensures After(cfg, s, waiting) == s.(buffer := After(cfg, s, waiting).buffer)
    decreases |waiting|
  {
    if waiting != [] {
      var front, last := waiting[..|waiting| - 1], waiting[|waiting| - 1];
      assert last in waiting && forall e :: e in front ==> e in waiting;
      KeepsPending(cfg, s, front);
    }
  }

  /** The session up to the Enter that ends a typed password. */
  function Answering(data: seq<byte>, typing: seq<Event>, last: seq<byte>): seq<Event> {
    [Output(data)] + typing + [Input(last, true)]
  }

  lemma EnterPends(cfg: Config, s: State, data: seq<byte>, typing: seq<Event>, last: seq<byte>)
    requires cfg.named && NothingToOffer(s) && Kind(cfg, s, data).Sudo?
    requires Flows(typing) && NoEnter(Typed(typing)) && !NoEnter(last)
    ensures var t, line := After(cfg, s, Answering(data, typing, last)), Type([], Typed(typing) + last).text;
      && t.phase.Running? && !t.awaitingConfirm && t.capturing.None? && t.stored.None? && t.buffer == []
      && t.pendingSave == if line == [] then None else Some(line)
  {
    var begun := Step(cfg, s, Output(data)).0;
    SudoCaptures(cfg, s, data);
    AfterOne(cfg, s, Output(data));
    AfterConcat(cfg, s, [Output(data)], typing);
    KeepsCapturing(cfg, begun, typing);
    AfterSnoc(cfg, s, [Output(data)] + typing, Input(last, true));
    EndsExactly([], Typed(typing));
    TypeMore([], Typed(typing), last);
    EndsExactly(Type([], Typed(typing)).text, last);
  }

  /**
   * A sudo prompt, typing that ends with the first Enter, and then no sudo prompt until the grace
   * period is over or the session is left: if the line is not empty it is saved, and stored from then on.
   */
  lemma SudoPasswordIsSaved(cfg: Config, s: State, data: seq<byte>, typing: seq<Event>, last: seq<byte>,
                            waiting: seq<Event>, e: Event)
    requires cfg.named && NothingToOffer(s) && Kind(cfg, s, data).Sudo?
    requires Flows(typing) && NoEnter(Typed(typing)) && !NoEnter(last)
    requires Type([], Typed(typing) + last).text != []
    requires Flows(waiting) && NoSudo(cfg, After(cfg, s, Answering(data, typing, last)), waiting)
    requires e == GraceOver(true) || e == Leave(true, false)
    ensures var line := Type([], Typed(typing) + last).text;
      var (t, effect) := Step(cfg, After(cfg, s, Answering(data, typing, last) + waiting), e);
      effect == Saved(Encoded(line)) && t.stored == Some(Encoded(line)) && t.pendingSave.None? && t.capturing.None?
  {
    EnterPends(cfg, s, data, typing, last);
    AfterConcat(cfg, s, Answering(data, typing, last), waiting);
    KeepsPending(cfg, After(cfg, s, Answering(data, typing, last)), waiting);
  }

  /** A sudo prompt while the typed password is pending: it is not saved, and the next line is captured. */
  lemma SudoAgainDiscards(cfg: Config, s: State, data: seq<byte>, typing: seq<Event>, last: seq<byte>,
                          waiting: seq<Event>, again: seq<byte>)
    requires cfg.named && NothingToOffer(s) && Kind(cfg, s, data).Sudo?
    requires Flows(typing) && NoEnter(Typed(typing)) && !NoEnter(last)
    requires Type([], Typed(typing) + last).text != []
    requires Flows(waiting) && NoSudo(cfg, After(cfg, s, Answering(data, typing, last)), waiting)
    requires Kind(cfg, After(cfg, s, Answering(data, typing, last) + waiting), again).Sudo?
    ensures var (t, effect) := Step(cfg, After(cfg, s, Answering(data, typing, last) + waiting), Output(again));
      effect == Nothing && Capturing(t) && t.buffer == []
  {
    EnterPends(cfg, s, data, typing, last);
    AfterConcat(cfg, s, Answering(data, typing, last), waiting);
    KeepsPending(cfg, After(cfg, s, Answering(data, typing, last)), waiting);
  }

  // ---- a stored password is offered ----

  lemma {:induction false} OutputWaits(cfg: Config, s: State, chunks: seq<seq<byte>>)
    requires s.awaitingConfirm
    ensures After(cfg, s, Outputs(chunks)) == s
    decreases |chunks|
  {
    if chunks != [] {
      OutputWaits(cfg, s, chunks[..|chunks| - 1]);
      OutputsSnoc(chunks);
      AfterSnoc(cfg, s, Outputs(chunks[..|chunks| - 1]), Output(chunks[|chunks| - 1]));
    }
  }

  /**
   * With a password stored, any detected prompt offers it, whatever the remote prints next.  Input
   * that starts with Enter fills it in with a newline; any other input declines it and is not sent.
   */
  lemma StoredPasswordIsOffered(cfg: Config, s: State, data: seq<byte>, chunks: seq<seq<byte>>, bytes: seq<byte>,
                                sent: bool)
    requires Idle(s) && s.stored.Some? && !s.autofillPendingVerify && !Kind(cfg, s, data).NoPrompt?
    ensures var run, enter := [Output(data)] + Outputs(chunks), bytes != [] && bytes[0] == 0x0d;
      && Step(cfg, s, Output(data)).1 == Nothing
      && Step(cfg, After(cfg, s, run), Input(bytes, sent))
         == (s.(buffer := [], autofillPendingVerify := enter),
             if enter then Filled(s.stored.value + [0x0a]) else Nothing)
  {
    AfterOne(cfg, s, Output(data));
    AfterConcat(cfg, s, [Output(data)], Outputs(chunks));
    OutputWaits(cfg, Step(cfg, s, Output(data)).0, chunks);
  }

  /** Typing changes nothing unless it answers a prompt. */
  lemma {:induction false} TypingPasses(cfg: Config, s: State, inputs: seq<Event>)
    requires !s.awaitingConfirm && s.capturing.None? && forall e :: e in inputs ==> e.Input? && e.sent
    ensures After(cfg, s, inputs) == s
    decreases |inputs|
  {
    if inputs != [] {
      assert inputs[|inputs| - 1] in inputs;
      TypingPasses(cfg, s, inputs[..|inputs| - 1]);
    }
  }

  /**
   * After a fill, whatever is typed, the next output decides: a prompt means the stored password was
   * wrong, and it is removed, from the keychain too if the session has a name; anything else means
   * that it worked, and the next prompt is offered it again.
   */
  lemma FillIsJudged(cfg: Config, s: State, inputs: seq<Event>, data: seq<byte>)
    requires Idle(s) && s.stored.Some? && s.autofillPendingVerify
    requires forall e :: e in inputs ==> e.Input? && e.sent
    ensures var (t, effect) := Step(cfg, After(cfg, s, inputs), Output(data));
      var kind := Kind(cfg, s, data);
      if kind.NoPrompt? then
        effect == Nothing && t == s.(autofillPendingVerify := false, buffer := FedOne(s.buffer, data))
      else
        && effect == (if cfg.named then Removed else Nothing)
        && t == s.(autofillPendingVerify := false, stored := None, buffer := [],
                   capturing := if kind.Sudo? && cfg.named then Some([]) else None)
  {
    TypingPasses(cfg, s, inputs);
  }

  /** Some password has been filled in, and nothing was put out since. */
  predicate Unjudged(cfg: Config, s: State, run: seq<Event>)
    decreases |run|
  {
    run != [] &&
    var front, last := run[..|run| - 1], run[|run| - 1];
    if Step(cfg, After(cfg, s, front), last).1.Filled? then true
    else !last.Output? && Unjudged(cfg, s, front)
  }

  lemma {:induction false} VerifiesAfterFill(cfg: Config, stored: Option<seq<byte>>, run: seq<Event>)
    requires Possible(cfg, Initial(stored), run)
    ensures var t := After(cfg, Initial(stored), run);
      t.autofillPendingVerify ==> !t.awaitingConfirm && Unjudged(cfg, Initial(stored), run)
    decreases |run|
  {
    if run != [] {
      VerifiesAfterFill(cfg, stored, run[..|run| - 1]);
      RunInvariant(cfg, stored, run[..|run| - 1]);
    }
  }

  /** A stored password is removed only by a prompt, in the first output after a fill, and only by name. */
  lemma RemovedOnlyAfterFill(cfg: Config, stored: Option<seq<byte>>, run: seq<Event>, e: Event)
    requires Possible(cfg, Initial(stored), run) && Enabled(After(cfg, Initial(stored), run), e)
    requires Step(cfg, After(cfg, Initial(stored), run), e).1 == Removed
    ensures cfg.named && Unjudged(cfg, Initial(stored), run)
    ensures e.Output? && !Kind(cfg, After(cfg, Initial(stored), run), e.data).NoPrompt?
  {
    VerifiesAfterFill(cfg, stored, run);
  }

  // ---- other prompts and the end ----

  /** Without a stored password only a sudo prompt of a named session does anything; its text is kept. */
  lemma OtherPromptsPass(cfg: Config, s: State, data: seq<byte>)
    requires Idle(s) && s.stored.None? && (Kind(cfg, s, data).Generic? || !cfg.named)
    ensures var (t, effect) := Step(cfg, s, Output(data));
      effect == Nothing && t == s.(buffer := t.buffer, autofillPendingVerify := t.autofillPendingVerify)
    ensures Step(cfg, s, Output(data)).0.buffer
      == if Extract(data) == [] then s.buffer else Tail(s.buffer + Extract(data))
  {
  }

  /** A failed send closes the session unless a fill was asked for; leaving ends or resumes it. */
  lemma PhaseExactly(cfg: Config, s: State, e: Event)
    ensures var t := Step(cfg, s, e).0;
      && t.phase ==
         (if e.Leave? then (if e.toBrowser then Running else Ended)
          else if e.Input? && !e.sent && !s.awaitingConfirm then Closing
          else s.phase)
      && (e.Leave? ==> t == s.(phase := t.phase, pendingSave := None, stored := t.stored))
      && (t.phase.Closing? && !s.phase.Closing? ==> t == s.(phase := Closing, capturing := t.capturing))
  {
  }

  /** When the grace period is over, or the session is left, a password that is not accepted is dropped. */
  lemma NotAccepted(cfg: Config, s: State, e: Event)
    requires e == GraceOver(false) || e == Leave(false, false)
    ensures var (t, effect) := Step(cfg, s, e);
      && effect == Nothing && t.pendingSave.None?
      && t == s.(pendingSave := None, phase := t.phase, buffer := t.buffer)
      && (e.GraceOver? && s.pendingSave.Some? ==> t.buffer == [])
  {
  }
}
