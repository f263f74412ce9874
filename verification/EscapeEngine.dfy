/** The detectors as they run: state updated in place, proved to follow Escapes and EscapeCascade. */
module EscapeEngine {
  import opened Options
  import opened Octets
  import opened Sequences
  import opened Escapes
  import opened EscapeCascade

  datatype EscapeState = Normal | Matching(n: nat)

  class EscapeDetector {
    const trigger: seq<byte>
    var state: EscapeState
    var buffered: seq<byte>
    var lastByteTime: Option<nat>

    ghost function View(): Detector
      reads this
    {
      Detector(trigger, if state.Normal? then 0 else state.n, buffered, lastByteTime)
    }

    ghost predicate Valid()
      reads this
    {
      View().Valid() && (state.Matching? ==> state.n > 0)
    }

    constructor (trigger: seq<byte>)
      ensures Valid() && View() == NewDetector(trigger)
    {
      this.trigger := trigger;
      state := EscapeState.Normal;
      buffered := [];
      lastByteTime := None;
    }

    method Flush(b: byte) returns (a: Action)
      requires Valid()
      modifies this
      ensures Valid() && View() == old(View()).Reset() && a == Action.Forward(old(buffered) + [b])
    {
      a := Action.Forward(buffered + [b]);
      buffered := [];
      state := EscapeState.Normal;
      lastByteTime := None;
    }

    method FeedWithTime(b: byte, now: nat) returns (a: Action)
      requires Valid()
      modifies this
      ensures Valid() && (View(), a) == Feed(old(View()), Key(b, now))
    {
      FeedConserves(View(), Key(b, now));
      if trigger == [] {
        return Action.Forward([b]);
      }
      assert state.Normal? ==> buffered + [b] == [b];
      match state {
        case Normal =>
          if b == trigger[0] {
            if |trigger| == 1 {
              buffered := [];
              lastByteTime := None;
              a := Trigger;
            } else {
              state := Matching(1);
              buffered := buffered + [b];
              lastByteTime := Some(now);
              a := Hold;
            }
          } else {
            a := Action.Forward([b]);
          }
        case Matching(n) =>
          if b == trigger[n] {
            if lastByteTime.Some? {
              if ElapsedMs(now, lastByteTime.value) < PASTE_THRESHOLD_MS {
                a := Flush(b);
                return;
              }
            }
            if n + 1 == |trigger| {
              state := EscapeState.Normal;
              buffered := [];
              lastByteTime := None;
              a := Trigger;
            } else {
              buffered := buffered + [b];
              lastByteTime := Some(now);
              state := Matching(n + 1);
              a := Hold;
            }
          } else {
            a := Flush(b);
          }
      }
    }

    /** Feeding without the paste guard; the clock value is stored but never compared. */
    method FeedUntimed(b: byte, clock: nat) returns (a: Action)
      requires Valid()
      modifies this
      ensures Valid() && (View(), a) == Escapes.FeedUntimed(old(View()), Key(b, clock))
    {
      lastByteTime := None;
      a := FeedWithTime(b, clock);
    }

    /** Feed the bytes that the stage before has let go, up to a trigger. */
    method FeedFlush(bytes: seq<byte>, clock: nat) returns (fired: bool, out: seq<byte>)
      requires Valid()
      modifies this
      ensures Valid()
      ensures var r := RunStage(old(View()), bytes, clock); View() == r.d && fired == r.fired && out == r.out
    {
      out := [];
      var i := 0;
      while i < |bytes|
        invariant 0 <= i <= |bytes|
        invariant Valid()
        invariant var rest := RunStage(View(), bytes[i..], clock);
          RunStage(old(View()), bytes, clock) == rest.(out := out + rest.out)
      {
        StageStep(View(), bytes, i, clock);
        var a := FeedUntimed(bytes[i], clock);
        match a {
          case Trigger =>
            return true, out;
          case Hold =>
          case Forward(f) =>
            Assoc(out, f, RunStage(View(), bytes[i + 1..], clock).out);
            out := out + f;
        }
        i := i + 1;
      }
      fired := false;
    }
  }

  class SessionEscapeHandler {
    const snippetDetector: EscapeDetector
    const bookmarkDetector: EscapeDetector
    const browserDetector: EscapeDetector
    var termSeq: TermSeq

    ghost function Parts(): set<object> {
      {this, snippetDetector, bookmarkDetector, browserDetector}
    }

    ghost predicate Valid()
      reads Parts()
    {
      && snippetDetector != bookmarkDetector && snippetDetector != browserDetector
      && bookmarkDetector != browserDetector
      && snippetDetector.Valid() && bookmarkDetector.Valid() && browserDetector.Valid()
    }

    ghost function View(): Handler
      reads Parts()
    {
      Handler(snippetDetector.View(), bookmarkDetector.View(), browserDetector.View(), termSeq)
    }

    constructor (snippetTrigger: seq<byte>, bookmarkTrigger: seq<byte>, browserTrigger: seq<byte>)
      ensures Valid() && fresh(Parts())
      ensures View() == NewHandler(snippetTrigger, bookmarkTrigger, browserTrigger)
    {
      snippetDetector := new EscapeDetector(snippetTrigger);
      bookmarkDetector := new EscapeDetector(bookmarkTrigger);
      browserDetector := new EscapeDetector(browserTrigger);
      termSeq := TermSeq.Normal;
    }

    method FeedWithTime(b: byte, now: nat) returns (action: SessionAction)
      requires Valid()
      modifies Parts()
      ensures Valid()
      ensures var r := FeedKey(old(View()), Key(b, now)); View() == r.h && action == r.action
    {
      match termSeq {
        case Normal =>
          if b == ESC {
            termSeq := AfterEsc;
            return SessionAction.Forward([b]);
          }
        case AfterEsc =>
          termSeq := if b == CSI then InCsi else if b == SS3 then InSs3 else TermSeq.Normal;
          return SessionAction.Forward([b]);
        case InCsi =>
          if 0x40 <= b <= 0x7e {
            termSeq := TermSeq.Normal;
          }
          return SessionAction.Forward([b]);
        case InSs3 =>
          termSeq := TermSeq.Normal;
          return SessionAction.Forward([b]);
      }
      var a := snippetDetector.FeedWithTime(b, now);
      match a {
        case Trigger =>
          return ShowSnippets;
        case Hold =>
          return Buffer;
        case Forward(bytes) =>
          action := CascadeFlush(bytes, now);
      }
    }

    /** The second and third detectors on what the first one forwarded. */
    method CascadeFlush(bytes: seq<byte>, now: nat) returns (action: SessionAction)
      requires Valid()
      modifies bookmarkDetector, browserDetector
      ensures Valid()
      ensures var r := Cascade(old(View()), old(View()).snippet, bytes, now); View() == r.h && action == r.action
    {
      StageConserves(bookmarkDetector.View(), bytes, now);
      var fired, afterBookmark := bookmarkDetector.FeedFlush(bytes, now);
      if fired {
        return ShowSaveBookmark;
      }
      var finalForward;
      fired, finalForward := browserDetector.FeedFlush(afterBookmark, now);
      if fired {
        return ShowBrowser;
      }
      action := if finalForward == [] then Buffer else SessionAction.Forward(finalForward);
    }
  }
}
