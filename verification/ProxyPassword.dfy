/**
 * The password part of the terminal proxy loop: capturing a sudo password while it is typed,
 * saving it once no new prompt follows, and filling a stored one in on request.
 */
module ProxyPassword {
  import opened Options
  import opened Octets
  import opened Utf8
  import opened Sequences
  import opened PasswordPrompt

  const ENTER: byte := 0x0d
  const NEWLINE: byte := 0x0a
  const DEL: byte := 0x7f
  const BACKSPACE: byte := 0x08

  /** `named`: the session belongs to a bookmark, under whose name passwords are kept. */
  datatype Config = Config(named: bool, patterns: Patterns)

  datatype Phase = Running | Closing | Ended

  /** Characters typed are kept one per byte; `stored` is the stored password's UTF-8. */
  datatype State = State(
    phase: Phase,
    awaitingConfirm: bool,
    capturing: Option<seq<byte>>,
    pendingSave: Option<seq<byte>>,
    stored: Option<seq<byte>>,
    autofillPendingVerify: bool,
    buffer: seq<byte>)

  /** `keychainOk`: the keychain accepts a save; `sent`: the remote side still takes input. */
  datatype Event =
    | GraceOver(keychainOk: bool)
    | Output(data: seq<byte>)
    | Input(bytes: seq<byte>, sent: bool)
    | Leave(keychainOk: bool, toBrowser: bool)

  datatype Effect = Nothing | Saved(password: seq<byte>) | Removed | Filled(sent: seq<byte>)

  function Initial(stored: Option<seq<byte>>): State {
    State(Running, false, None, None, stored, false, [])
  }

  // ---- the typed line ----

  /** A line as edited so far, and whether Enter has ended it. */
  datatype Line = Line(text: seq<byte>, ended: bool)

  function Type(text: seq<byte>, bytes: seq<byte>): Line
    decreases |bytes|
  {
    if bytes == [] then Line(text, false)
    else
      var b, rest := bytes[0], bytes[1..];
      if b == ENTER || b == NEWLINE then Line(text, true)
      else if b == DEL || b == BACKSPACE then Type(if text == [] then [] else text[..|text| - 1], rest)
      else Type(if b >= 0x20 then text + [b] else text, rest)
  }

  lemma {:induction false} TypeMore(text: seq<byte>, a: seq<byte>, b: seq<byte>)
    ensures Type(text, a + b) == if Type(text, a).ended then Type(text, a) else Type(Type(text, a).text, b)
    decreases |a|
  {
    if a == [] {
      Unit(b);
    } else {
      DropWithin(a, b, 1);
      if !(a[0] == ENTER || a[0] == NEWLINE) {
        TypeMore(
          if a[0] == DEL || a[0] == BACKSPACE then (if text == [] then [] else text[..|text| - 1])
          else if a[0] >= 0x20 then text + [a[0]] else text,
          a[1..], b);
      }
    }
  }

  /** The text as it is stored: each typed byte becomes one character, two bytes from 0x80 on. */
  function Encoded(text: seq<byte>): seq<byte> {
    if text == [] then []
    else
      (if text[0] < 0x80 then [text[0]] else [0xc0 + text[0] / 64, 0x80 + text[0] % 64]) + Encoded(text[1..])
  }

  // ---- steps ----

  function Kind(cfg: Config, s: State, data: seq<byte>): PromptKind {
    if Extract(data) == [] then NoPrompt else Classify(cfg.patterns, FedOne(s.buffer, data))
  }

  function OnGraceOver(cfg: Config, s: State, keychainOk: bool): (State, Effect) {
    if s.pendingSave.None? then (s, Nothing)
    else
      var t := s.(pendingSave := None, buffer := []);
      if cfg.named && keychainOk
      then (t.(stored := Some(Encoded(s.pendingSave.value))), Saved(Encoded(s.pendingSave.value)))
      else (t, Nothing)
  }

  function OnOutput(cfg: Config, s: State, data: seq<byte>): (State, Effect) {
    if s.awaitingConfirm || s.capturing.Some? then (s, Nothing)
    else
      var kind := Kind(cfg, s, data);
      var fed := s.(buffer := FedOne(s.buffer, data));
      if s.pendingSave.Some? then
        (if kind.Sudo? then fed.(pendingSave := None, capturing := Some([]), buffer := []) else fed, Nothing)
      else if kind.NoPrompt? then (fed.(autofillPendingVerify := false), Nothing)
      else if s.autofillPendingVerify && s.stored.Some? then
        (fed.(autofillPendingVerify := false, stored := None, buffer := [],
              capturing := if kind.Sudo? && cfg.named then Some([]) else None),
         if cfg.named then Removed else Nothing)
      else if s.stored.Some? then (fed.(awaitingConfirm := true), Nothing)
      else if kind.Sudo? && cfg.named then (fed.(capturing := Some([])), Nothing)
      else (fed, Nothing)
  }

  function OnInput(cfg: Config, s: State, bytes: seq<byte>, sent: bool): (State, Effect) {
    if s.awaitingConfirm then
      var fill := bytes != [] && bytes[0] == ENTER && s.stored.Some?;
      (s.(awaitingConfirm := false, autofillPendingVerify := fill, buffer := []),
       if fill then Filled(s.stored.value + [NEWLINE]) else Nothing)
    else if s.capturing.Some? then
      var line := Type(s.capturing.value, bytes);
      if !sent then (s.(capturing := Some(line.text), phase := Closing), Nothing)
      else if !line.ended then (s.(capturing := Some(line.text)), Nothing)
      else (s.(capturing := None, buffer := [],
               pendingSave := if line.text != [] && cfg.named then Some(line.text) else s.pendingSave), Nothing)
    else (if sent then s else s.(phase := Closing), Nothing)
  }

  /** Leaving the inner loop: a pending password is saved at once. */
  function OnLeave(cfg: Config, s: State, keychainOk: bool, toBrowser: bool): (State, Effect) {
    var t := s.(pendingSave := None, phase := if toBrowser then Running else Ended);
    if s.pendingSave.Some? && cfg.named && keychainOk
    then (t.(stored := Some(Encoded(s.pendingSave.value))), Saved(Encoded(s.pendingSave.value)))
    else (t, Nothing)
  }

  function Step(cfg: Config, s: State, e: Event): (State, Effect) {
    match e
    case GraceOver(ok) => OnGraceOver(cfg, s, ok)
    case Output(data) => OnOutput(cfg, s, data)
    case Input(bytes, sent) => OnInput(cfg, s, bytes, sent)
    case Leave(ok, toBrowser) => OnLeave(cfg, s, ok, toBrowser)
  }

  /** The timer is armed only with a password pending; the browser opens only from plain typing. */
  predicate Enabled(s: State, e: Event) {
    && !s.phase.Ended?
    && (s.phase.Closing? ==> e.Leave? && !e.toBrowser)
    && (e.GraceOver? ==> s.pendingSave.Some?)
    && (e.Leave? && e.toBrowser ==> !s.awaitingConfirm && s.capturing.None? && s.pendingSave.None?)
  }

  // ---- runs ----

  function After(cfg: Config, s: State, run: seq<Event>): State
    decreases |run|
  {
    if run == [] then s else Step(cfg, After(cfg, s, run[..|run| - 1]), run[|run| - 1]).0
  }

  predicate Possible(cfg: Config, s: State, run: seq<Event>)
    decreases |run|
  {
    run == [] ||
    (Possible(cfg, s, run[..|run| - 1]) && Enabled(After(cfg, s, run[..|run| - 1]), run[|run| - 1]))
  }

  /** Does the output event `e` make the detector report a prompt of this kind in state `s`? */
  predicate Detects(cfg: Config, s: State, e: Event, kind: PromptKind) {
    e.Output? && !s.awaitingConfirm && s.capturing.None? && Kind(cfg, s, e.data) == kind
  }

  /** What has been typed since the last sudo prompt was detected; None before the first one. */
  function TypedSinceSudo(cfg: Config, s: State, run: seq<Event>): Option<seq<byte>>
    decreases |run|
  {
    if run == [] then None
    else
      var front, last := run[..|run| - 1], run[|run| - 1];
      var before := TypedSinceSudo(cfg, s, front);
      if Detects(cfg, After(cfg, s, front), last, Sudo) then Some([])
      else if last.Input? && before.Some? then Some(before.value + last.bytes)
      else before
  }

  /** What has been typed since any prompt was last detected; None before the first one. */
  function TypedSincePrompt(cfg: Config, s: State, run: seq<Event>): Option<seq<byte>>
    decreases |run|
  {
    if run == [] then None
    else
      var front, last := run[..|run| - 1], run[|run| - 1];
      var before := TypedSincePrompt(cfg, s, front);
      var g := After(cfg, s, front);
      if Detects(cfg, g, last, Sudo) || Detects(cfg, g, last, Generic) then Some([])
      else if last.Input? && before.Some? then Some(before.value + last.bytes)
      else before
  }

  // ---- invariants ----

  predicate Exclusive(cfg: Config, s: State) {
    && !(s.awaitingConfirm && s.capturing.Some?)
    && !(s.awaitingConfirm && s.pendingSave.Some?)
    && !(s.capturing.Some? && s.pendingSave.Some?)
    && (s.capturing.Some? || s.pendingSave.Some? ==> s.stored.None? && cfg.named)
    && (s.awaitingConfirm || s.autofillPendingVerify ==> s.stored.Some?)
  }

  /** What is captured or pending is the line typed since the last sudo prompt. */
  predicate Traced(s: State, typed: Option<seq<byte>>) {
    && (s.capturing.Some? && s.phase.Running? ==>
          typed.Some? && Type([], typed.value) == Line(s.capturing.value, false))
    && (s.pendingSave.Some? ==>
          typed.Some? && s.pendingSave.value != [] && Type([], typed.value) == Line(s.pendingSave.value, true))
  }

  lemma StepKeepsExclusive(cfg: Config, s: State, e: Event)
    requires Exclusive(cfg, s) && Enabled(s, e)
    ensures Exclusive(cfg, Step(cfg, s, e).0)
  {
  }

  lemma StepKeepsTraced(cfg: Config, s: State, e: Event, before: Option<seq<byte>>, after: Option<seq<byte>>)
    requires Exclusive(cfg, s) && Enabled(s, e) && Traced(s, before)
    requires after ==
      if Detects(cfg, s, e, Sudo) then Some([])
      else if e.Input? && before.Some? then Some(before.value + e.bytes)
      else before
    ensures Traced(Step(cfg, s, e).0, after)
  {
    if e.Input? && before.Some? {
      TypeMore([], before.value, e.bytes);
    }
  }

  lemma {:induction false} RunInvariant(cfg: Config, stored: Option<seq<byte>>, run: seq<Event>)
    requires Possible(cfg, Initial(stored), run)
    ensures var s := After(cfg, Initial(stored), run);
      Exclusive(cfg, s) && Traced(s, TypedSinceSudo(cfg, Initial(stored), run))
    decreases |run|
  {
    if run != [] {
      var front, last := run[..|run| - 1], run[|run| - 1];
      RunInvariant(cfg, stored, front);
      var s := After(cfg, Initial(stored), front);
      StepKeepsExclusive(cfg, s, last);
      StepKeepsTraced(cfg, s, last,
                      TypedSinceSudo(cfg, Initial(stored), front), TypedSinceSudo(cfg, Initial(stored), run));
    }
  }

  /**
   * In every run at most one of awaiting, capturing and pending is active, and capturing or
   * pending means no stored password and a known name.
   */
  lemma AtMostOneActive(cfg: Config, stored: Option<seq<byte>>, run: seq<Event>)
    requires Possible(cfg, Initial(stored), run)
    ensures Exclusive(cfg, After(cfg, Initial(stored), run))
  {
    RunInvariant(cfg, stored, run);
  }

  /** After `run`, `password` is the line typed since the last sudo prompt, not empty and ended by Enter. */
  predicate IsTypedLine(cfg: Config, stored: Option<seq<byte>>, run: seq<Event>, password: seq<byte>) {
    var typed := TypedSinceSudo(cfg, Initial(stored), run);
    typed.Some? && cfg.named &&
    var line := Type([], typed.value);
    line.ended && line.text != [] && password == Encoded(line.text)
  }

  /**
   * A password that is saved is the line typed after the last sudo prompt, ended by Enter and not
   * empty; no sudo prompt has been detected since.
   */
  lemma SavedIsTypedLine(cfg: Config, stored: Option<seq<byte>>, run: seq<Event>, e: Event, password: seq<byte>)
    requires Possible(cfg, Initial(stored), run + [e])
    requires Step(cfg, After(cfg, Initial(stored), run), e).1 == Saved(password)
    ensures IsTypedLine(cfg, stored, run, password)
  {
    AfterSnoc(cfg, Initial(stored), run, e);
    RunInvariant(cfg, stored, run);
    SavesPending(cfg, After(cfg, Initial(stored), run), e, password);
  }

  lemma SavesPending(cfg: Config, s: State, e: Event, password: seq<byte>)
    requires Step(cfg, s, e).1 == Saved(password)
    ensures cfg.named && s.pendingSave.Some? && password == Encoded(s.pendingSave.value)
  {
  }

  lemma {:induction false} UnansweredWhileAwaiting(cfg: Config, stored: Option<seq<byte>>, run: seq<Event>)
    requires Possible(cfg, Initial(stored), run)
    ensures After(cfg, Initial(stored), run).awaitingConfirm ==> TypedSincePrompt(cfg, Initial(stored), run) == Some([])
    decreases |run|
  {
    if run != [] {
      UnansweredWhileAwaiting(cfg, stored, run[..|run| - 1]);
    }
  }

  /** After `run`, `e` answers a detected prompt with Enter, and `sent` is the stored password and a newline. */
  predicate IsAnswer(cfg: Config, stored: Option<seq<byte>>, run: seq<Event>, e: Event, sent: seq<byte>) {
    && e.Input? && e.bytes != [] && e.bytes[0] == ENTER
    && TypedSincePrompt(cfg, Initial(stored), run) == Some([])
    && sent != [] && sent[|sent| - 1] == NEWLINE
    && After(cfg, Initial(stored), run).stored == Some(sent[..|sent| - 1])
  }

  lemma FillAnswers(cfg: Config, s: State, e: Event, sent: seq<byte>)
    requires Step(cfg, s, e).1 == Filled(sent)
    ensures s.awaitingConfirm && e.Input? && e.bytes != [] && e.bytes[0] == ENTER
    ensures sent != [] && sent[|sent| - 1] == NEWLINE && s.stored == Some(sent[..|sent| - 1])
  {
  }

  /** A stored password is sent only as the first input after a detected prompt, and only for Enter. */
  lemma FilledOnlyOnEnter(cfg: Config, stored: Option<seq<byte>>, run: seq<Event>, e: Event, sent: seq<byte>)
    requires Possible(cfg, Initial(stored), run) && Enabled(After(cfg, Initial(stored), run), e)
    requires Step(cfg, After(cfg, Initial(stored), run), e).1 == Filled(sent)
    ensures IsAnswer(cfg, stored, run, e, sent)
  {
    UnansweredWhileAwaiting(cfg, stored, run);
    FillAnswers(cfg, After(cfg, Initial(stored), run), e, sent);
  }

  lemma {:induction false} PossiblePrefix(cfg: Config, s: State, run: seq<Event>, n: nat)
    requires Possible(cfg, s, run) && n <= |run|
    ensures Possible(cfg, s, run[..n])
    decreases |run|
  {
    if n == |run| {
      Whole(run);
    } else {
      PossiblePrefix(cfg, s, run[..|run| - 1], n);
      TakeTake(run, |run| - 1, n);
    }
  }

  lemma AfterSnoc(cfg: Config, s: State, run: seq<Event>, e: Event)
    ensures After(cfg, s, run + [e]) == Step(cfg, After(cfg, s, run), e).0
    ensures Possible(cfg, s, run + [e]) ==> Possible(cfg, s, run) && Enabled(After(cfg, s, run), e)
  {
    ConcatFront(run, [e]);
    Unit(run);
  }

  /** What `e`, coming after `run`, may make the session do. */
  predicate Justified(cfg: Config, stored: Option<seq<byte>>, run: seq<Event>, e: Event, effect: Effect) {
    match effect
    case Saved(password) => IsTypedLine(cfg, stored, run, password)
    case Filled(sent) => IsAnswer(cfg, stored, run, e, sent)
    case _ => true
  }

  predicate AllJustified(cfg: Config, stored: Option<seq<byte>>, events: seq<Event>, effects: seq<Effect>) {
    |effects| <= |events| &&
    forall i :: 0 <= i < |effects| ==> Justified(cfg, stored, events[..i], events[i], effects[i])
  }

  lemma JustifiedSnoc(cfg: Config, stored: Option<seq<byte>>, events: seq<Event>, effects: seq<Effect>, effect: Effect)
    requires AllJustified(cfg, stored, events, effects) && |effects| < |events|
    requires Justified(cfg, stored, events[..|effects|], events[|effects|], effect)
    ensures AllJustified(cfg, stored, events, effects + [effect])
  {
  }

  /** The stored form of a captured line is what was typed exactly when every byte is ASCII. */
  lemma {:induction false} EncodedIsTypedExactly(line: seq<byte>)
    ensures |Encoded(line)| >= |line|
    ensures Encoded(line) == line <==> forall i :: 0 <= i < |line| ==> line[i] < 0x80
  {
    if line != [] {
      EncodedIsTypedExactly(line[1..]);
      var rest := Encoded(line[1..]);
      if line[0] < 0x80 {
        assert Encoded(line) == [line[0]] + rest;
        assert Encoded(line)[1..] == rest;
        assert line == [line[0]] + line[1..];
      }
    }
  }
}
