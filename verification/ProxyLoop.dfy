/** The proxy loop's password variables, updated event by event as ProxyPassword specifies. */
module ProxyLoop {
  import opened Options
  import opened Octets
  import opened Utf8
  import opened PasswordPrompt
  import opened ProxyPassword
  import opened Sequences

  class PasswordLoop {
    const named: bool
    const detector: PasswordDetector
    var phase: Phase
    var awaitingConfirm: bool
    var capturingPw: Option<seq<byte>>
    var pendingSavePw: Option<seq<byte>>
    var storedPassword: Option<seq<byte>>
    var autofillPendingVerify: bool

    ghost function Cfg(): Config {
      Config(named, detector.patterns)
    }

    ghost predicate Valid() {
      detector.hasPassword
    }

    ghost function View(): State
      reads this, detector
    {
      State(phase, awaitingConfirm, capturingPw, pendingSavePw, storedPassword, autofillPendingVerify, detector.buffer)
    }

    constructor (named: bool, patterns: Patterns, stored: Option<seq<byte>>)
      ensures Valid() && fresh(detector)
      ensures Cfg() == Config(named, patterns) && View() == Initial(stored)
    {
      this.named := named;
      detector := new PasswordDetector(patterns, true);
      phase := Running;
      awaitingConfirm := false;
      capturingPw, pendingSavePw, storedPassword := None, None, stored;
      autofillPendingVerify := false;
    }

    /** The grace period after a captured password is over. */
    method HandleGraceOver(keychainOk: bool) returns (effect: Effect)
      requires Valid()
      modifies this, detector
      ensures Valid() && (View(), effect) == OnGraceOver(Cfg(), old(View()), keychainOk)
    {
      effect := Nothing;
      if pendingSavePw.Some? {
        var pw := pendingSavePw.value;
        pendingSavePw := None;
        if named && keychainOk {
          effect := Saved(Encoded(pw));
          storedPassword := Some(Encoded(pw));
        }
        detector.Clear();
      }
    }

    method HandleOutput(data: seq<byte>) returns (effect: Effect)
      requires Valid()
      modifies this, detector
      ensures Valid() && (View(), effect) == OnOutput(Cfg(), old(View()), data)
    {
      effect := Nothing;
      if awaitingConfirm || capturingPw.Some? {
        return;
      }
      var prompt := detector.Feed(data);
      if pendingSavePw.Some? {
        if prompt == Sudo {
          pendingSavePw := None;
          capturingPw := Some([]);
          detector.Clear();
        }
      } else if prompt == NoPrompt {
        autofillPendingVerify := false;
      } else if autofillPendingVerify && storedPassword.Some? {
        autofillPendingVerify := false;
        if named {
          effect := Removed;
        }
        storedPassword := None;
        if prompt == Sudo && named {
          capturingPw := Some([]);
        }
        detector.Clear();
      } else if storedPassword.Some? {
        awaitingConfirm := true;
      } else if prompt == Sudo && named {
        capturingPw := Some([]);
      }
    }

    /** Edit the captured line byte by byte, up to Enter. */
    method TypeBytes(text: seq<byte>, bytes: seq<byte>) returns (line: Line)
      ensures line == Type(text, bytes)
    {
      var edited := text;
      var i := 0;
      while i < |bytes|
        invariant 0 <= i <= |bytes|
        invariant Type(edited, bytes[i..]) == Type(text, bytes)
      {
        var b := bytes[i];
        assert bytes[i..][1..] == bytes[i + 1..];
        if b == ENTER || b == NEWLINE {
          return Line(edited, true);
        } else if b == DEL || b == BACKSPACE {
          edited := if edited == [] then [] else edited[..|edited| - 1];
        } else if b >= 0x20 {
          edited := edited + [b];
        }
        i := i + 1;
      }
      line := Line(edited, false);
    }

    method HandleInput(bytes: seq<byte>, sent: bool) returns (effect: Effect)
      requires Valid()
      modifies this, detector
      ensures Valid() && (View(), effect) == OnInput(Cfg(), old(View()), bytes, sent)
    {
      effect := Nothing;
      if awaitingConfirm {
        if bytes != [] && bytes[0] == ENTER && storedPassword.Some? {
          effect := Filled(storedPassword.value + [NEWLINE]);
          autofillPendingVerify := true;
        } else {
          autofillPendingVerify := false;
        }
        awaitingConfirm := false;
        detector.Clear();
      } else if capturingPw.Some? {
        var line := TypeBytes(capturingPw.value, bytes);
        capturingPw := Some(line.text);
        if !sent {
          phase := Closing;
          return;
        }
        if line.ended {
          capturingPw := None;
          if line.text != [] && named {
            pendingSavePw := Some(line.text);
          }
          detector.Clear();
        }
      } else if !sent {
        phase := Closing;
      }
    }

    method HandleLeave(keychainOk: bool, toBrowser: bool) returns (effect: Effect)
      requires Valid()
      modifies this
      ensures Valid() && (View(), effect) == OnLeave(Cfg(), old(View()), keychainOk, toBrowser)
    {
      effect := Nothing;
      if pendingSavePw.Some? && named {
        if keychainOk {
          effect := Saved(Encoded(pendingSavePw.value));
          storedPassword := Some(Encoded(pendingSavePw.value));
        }
      }
      pendingSavePw := None;
      phase := if toBrowser then Running else Ended;
    }

    /** One turn of the event loop. */
    method Handle(e: Event) returns (effect: Effect)
      requires Valid() && Enabled(View(), e)
      modifies this, detector
      ensures Valid() && (View(), effect) == Step(Cfg(), old(View()), e)
      ensures old(Exclusive(Cfg(), View())) ==> Exclusive(Cfg(), View())
    {
      if Exclusive(Cfg(), View()) {
        StepKeepsExclusive(Cfg(), View(), e);
      }
      match e {
        case GraceOver(ok) => effect := HandleGraceOver(ok);
        case Output(data) => effect := HandleOutput(data);
        case Input(bytes, sent) => effect := HandleInput(bytes, sent);
        case Leave(ok, toBrowser) => effect := HandleLeave(ok, toBrowser);
      }
    }

    /**
     * A whole session, event by event: whatever it saves is the line typed since the last sudo
     * prompt, and it fills the stored password in only for an Enter that answers a prompt.
     */
    method RunSession(events: seq<Event>) returns (effects: seq<Effect>)
      requires Valid() && View() == Initial(storedPassword) && Possible(Cfg(), View(), events)
      modifies this, detector
      ensures Valid() && View() == After(Cfg(), Initial(old(storedPassword)), events)
      ensures Exclusive(Cfg(), View())
      ensures |effects| == |events|
      ensures AllJustified(Cfg(), old(storedPassword), events, effects)
    {
      ghost var cfg, stored := Cfg(), storedPassword;
      effects := [];
      var i := 0;
      while i < |events|
        invariant 0 <= i == |effects| <= |events|
        invariant Valid() && View() == After(cfg, Initial(stored), events[..i])
        invariant AllJustified(cfg, stored, events, effects)
      {
        var effect := HandleNext(events, i, stored);
        JustifiedSnoc(cfg, stored, events, effects, effect);
        effects := effects + [effect];
        i := i + 1;
      }
      Whole(events);
      AtMostOneActive(cfg, stored, events);
    }

    /** The event at position `i` of a session. */
    method HandleNext(events: seq<Event>, i: nat, ghost stored: Option<seq<byte>>) returns (effect: Effect)
      requires i < |events| && Possible(Cfg(), Initial(stored), events)
      requires Valid() && View() == After(Cfg(), Initial(stored), events[..i])
      modifies this, detector
      ensures Valid() && View() == After(Cfg(), Initial(stored), events[..i + 1])
      ensures Justified(Cfg(), stored, events[..i], events[i], effect)
    {
      ghost var cfg, front := Cfg(), events[..i];
      TakeSnoc(events, i);
      PossiblePrefix(cfg, Initial(stored), events, i + 1);
      AfterSnoc(cfg, Initial(stored), front, events[i]);
      effect := Handle(events[i]);
      if effect.Saved? {
        SavedIsTypedLine(cfg, stored, front, events[i], effect.password);
      } else if effect.Filled? {
        FilledOnlyOnEnter(cfg, stored, front, events[i], effect.sent);
      }
    }
  }
}
