/**
 * Trigger detection on keyboard input: one timed matcher, and three of them in a cascade behind a
 * tracker of terminal escape sequences.
 */
module Escapes {
  import opened Options
  import opened Octets
  import opened Sequences

  const PASTE_THRESHOLD_MS: nat := 20

  /** A byte and the time it was fed, in nanoseconds. */
  datatype Key = Key(b: byte, at: nat)

  /** Whole milliseconds between two instants; an earlier `now` counts as none. */
  function ElapsedMs(now: nat, prev: nat): nat {
    if now < prev then 0 else (now - prev) / 1_000_000
  }

  // ---- one detector ----

  /** `matched` bytes of the trigger have been seen and are held back. */
  datatype Detector = Detector(trigger: seq<byte>, matched: nat, buffered: seq<byte>, lastByteTime: Option<nat>) {
    predicate Valid() {
      && (trigger == [] ==> matched == 0)
      && (trigger != [] ==> matched < |trigger|)
      && buffered == trigger[..matched]
    }

    function Reset(): Detector {
      Detector(trigger, 0, [], None)
    }
  }

  datatype Action = Forward(bytes: seq<byte>) | Hold | Trigger

  function NewDetector(trigger: seq<byte>): (d: Detector)
    ensures d.Valid() && d.buffered == []
  {
    Detector(trigger, 0, [], None)
  }

  function Feed(d: Detector, k: Key): (Detector, Action)
    requires d.Valid()
  {
    if d.trigger == [] then (d, Forward([k.b]))
    else if k.b != d.trigger[d.matched] then
      (if d.matched == 0 then d else d.Reset(), Forward(d.buffered + [k.b]))
    else if d.matched > 0 && d.lastByteTime.Some? && ElapsedMs(k.at, d.lastByteTime.value) < PASTE_THRESHOLD_MS then
      (d.Reset(), Forward(d.buffered + [k.b]))
    else if d.matched + 1 == |d.trigger| then (d.Reset(), Trigger)
    else (Detector(d.trigger, d.matched + 1, d.buffered + [k.b], Some(k.at)), Hold)
  }

  /** Feeding without the paste guard: the time of the previous byte is forgotten first. */
  function FeedUntimed(d: Detector, k: Key): (Detector, Action)
    requires d.Valid()
  {
    Feed(d.(lastByteTime := None), k)
  }

  function Replay(a: Action, trigger: seq<byte>): seq<byte> {
    match a
    case Forward(bytes) => bytes
    case Hold => []
    case Trigger => trigger
  }

  lemma FeedConserves(d: Detector, k: Key)
    requires d.Valid()
    ensures var (e, a) := Feed(d, k);
      e.Valid() && e.trigger == d.trigger && Replay(a, d.trigger) + e.buffered == d.buffered + [k.b]
    ensures Feed(d, k).1.Trigger? ==> Feed(d, k).0.buffered == [] && d.buffered + [k.b] == d.trigger
  {
    if d.trigger != [] && k.b == d.trigger[d.matched] {
      assert d.trigger[..d.matched] + [k.b] == d.trigger[..d.matched + 1];
      assert d.trigger[..|d.trigger|] == d.trigger;
    }
  }

  /** The detector after a run of keys. */
  function Fed(d: Detector, keys: seq<Key>): (e: Detector)
    requires d.Valid()
    ensures e.Valid() && e.trigger == d.trigger
    decreases |keys|
  {
    if keys == [] then d
    else
      FeedConserves(Fed(d, keys[..|keys| - 1]), keys[|keys| - 1]);
      Feed(Fed(d, keys[..|keys| - 1]), keys[|keys| - 1]).0
  }

  /** What a run puts out, with the trigger's own bytes where it fired. */
  function Replayed(d: Detector, keys: seq<Key>): seq<byte>
    requires d.Valid()
    decreases |keys|
  {
    if keys == [] then []
    else
      var front, last := keys[..|keys| - 1], keys[|keys| - 1];
      Replayed(d, front) + Replay(Feed(Fed(d, front), last).1, d.trigger)
  }

  function BytesOf(keys: seq<Key>): (r: seq<byte>)
    ensures |r| == |keys|
  {
    seq(|keys|, i requires 0 <= i < |keys| => keys[i].b)
  }

  /** Any trigger, any timing: no byte is lost, added or reordered. */
  lemma {:induction false} RunConserves(d: Detector, keys: seq<Key>)
    requires d.Valid()
    ensures Replayed(d, keys) + Fed(d, keys).buffered == d.buffered + BytesOf(keys)
    decreases |keys|
  {
    if keys != [] {
      var front, last := keys[..|keys| - 1], keys[|keys| - 1];
      RunConserves(d, front);
      FeedConserves(Fed(d, front), last);
      BytesOfSnoc(keys);
      var passed := Replay(Feed(Fed(d, front), last).1, d.trigger);
      Assoc(Replayed(d, front), passed, Fed(d, keys).buffered);
      Assoc(Replayed(d, front), Fed(d, front).buffered, [last.b]);
      Assoc(d.buffered, BytesOf(front), [last.b]);
    } else {
      Unit(d.buffered);
    }
  }

  lemma BytesOfSnoc(keys: seq<Key>)
    requires keys != []
    ensures BytesOf(keys) == BytesOf(keys[..|keys| - 1]) + [keys[|keys| - 1].b]
  {
  }

  /** Key `i` was typed at least the paste threshold after the one before. */
  predicate Unhurried(keys: seq<Key>, i: nat)
    requires 1 <= i < |keys|
  {
    ElapsedMs(keys[i].at, keys[i - 1].at) >= PASTE_THRESHOLD_MS
  }

  /** The keys spell `word`, none of them hurried. */
  ghost predicate Typed(keys: seq<Key>, word: seq<byte>) {
    BytesOf(keys) == word && forall i :: 1 <= i < |keys| ==> Unhurried(keys, i)
  }

  function LastKeys(keys: seq<Key>, n: nat): seq<Key>
    requires n <= |keys|
  {
    keys[|keys| - n..]
  }

  /** A held prefix of the trigger is what was last typed. */
  ghost predicate Tracks(d: Detector, keys: seq<Key>)
    requires d.Valid()
  {
    d.matched > 0 ==>
      && d.matched <= |keys|
      && Typed(LastKeys(keys, d.matched), d.trigger[..d.matched])
      && d.lastByteTime == Some(keys[|keys| - 1].at)
  }

  lemma TypedSnoc(keys: seq<Key>, word: seq<byte>, k: Key)
    requires Typed(keys, word)
    requires keys != [] ==> ElapsedMs(k.at, keys[|keys| - 1].at) >= PASTE_THRESHOLD_MS
    ensures Typed(keys + [k], word + [k.b])
  {
    assert BytesOf(keys + [k]) == BytesOf(keys) + [k.b];
    forall i | 1 <= i < |keys + [k]| ensures Unhurried(keys + [k], i) {
      assert i < |keys| ==> Unhurried(keys, i);
    }
  }

  lemma {:induction false} RunTracks(trigger: seq<byte>, keys: seq<Key>)
    ensures Tracks(Fed(NewDetector(trigger), keys), keys)
    decreases |keys|
  {
    if keys != [] {
      RunTracks(trigger, keys[..|keys| - 1]);
      StepTracks(Fed(NewDetector(trigger), keys[..|keys| - 1]), keys);
    }
  }

  lemma StepTracks(d: Detector, keys: seq<Key>)
    requires d.Valid() && keys != [] && Tracks(d, keys[..|keys| - 1])
    ensures Feed(d, keys[|keys| - 1]).0.Valid()
    ensures Tracks(Feed(d, keys[|keys| - 1]).0, keys)
    ensures Feed(d, keys[|keys| - 1]).1.Trigger? ==>
      |d.trigger| <= |keys| && Typed(LastKeys(keys, |d.trigger|), d.trigger)
  {
    FeedConserves(d, keys[|keys| - 1]);
    Matched(d, keys[|keys| - 1]);
    if !Feed(d, keys[|keys| - 1]).1.Forward? {
      MatchTyped(d, keys);
      Whole(d.trigger);
    }
  }

  /** A key that is not forwarded is the next one of the trigger, and not hurried. */
  lemma Matched(d: Detector, k: Key)
    requires d.Valid()
    ensures var (e, a) := Feed(d, k);
      && (a.Forward? ==> e.matched == 0)
      && (!a.Forward? ==>
            d.matched < |d.trigger| && k.b == d.trigger[d.matched] &&
            (d.matched > 0 && d.lastByteTime.Some? ==>
               ElapsedMs(k.at, d.lastByteTime.value) >= PASTE_THRESHOLD_MS))
      && (a.Hold? ==> e.matched == d.matched + 1 && e.lastByteTime == Some(k.at))
      && (a.Trigger? ==> e.matched == 0 && d.matched + 1 == |d.trigger|)
  {
  }

  lemma MatchTyped(d: Detector, keys: seq<Key>)
    requires d.Valid() && keys != [] && Tracks(d, keys[..|keys| - 1])
    requires !Feed(d, keys[|keys| - 1]).1.Forward?
    ensures d.matched < |keys| && Typed(LastKeys(keys, d.matched + 1), d.trigger[..d.matched + 1])
  {
    var front, last, n := keys[..|keys| - 1], keys[|keys| - 1], d.matched;
    Matched(d, last);
    assert Typed(LastKeys(front, n), d.trigger[..n]);
    TypedSnoc(LastKeys(front, n), d.trigger[..n], last);
    LastSnoc(keys, n);
    TakeSnoc(d.trigger, n);
  }

  /** From rest, the trigger typed slowly enough is held byte by byte and fires at its last byte. */
  lemma {:induction false} TypedFires(d: Detector, keys: seq<Key>)
    requires d.Valid() && d.matched == 0 && d.trigger != []
    requires 0 < |keys| <= |d.trigger| && Typed(keys, d.trigger[..|keys|])
    ensures var e := Fed(d, keys[..|keys| - 1]);
      if |keys| == |d.trigger| then Feed(e, keys[|keys| - 1]).1.Trigger?
      else Fed(d, keys).matched == |keys| && Fed(d, keys).lastByteTime == Some(keys[|keys| - 1].at)
    decreases |keys|
  {
    var front, last := keys[..|keys| - 1], keys[|keys| - 1];
    assert BytesOf(keys)[|front|] == last.b;
    if front != [] {
      assert BytesOf(front) == BytesOf(keys)[..|front|] == d.trigger[..|front|];
      forall i | 1 <= i < |front| ensures Unhurried(front, i) {
        assert Unhurried(keys, i);
      }
      assert Unhurried(keys, |front|);
      TypedFires(d, front);
    }
  }

  lemma {:induction false} FedConcat(d: Detector, a: seq<Key>, b: seq<Key>)
    requires d.Valid()
    ensures Fed(d, a + b) == Fed(Fed(d, a), b)
    decreases |b|
  {
    if b == [] {
      assert a + b == a;
    } else {
      assert (a + b)[..|a + b| - 1] == a + b[..|b| - 1];
      FedConcat(d, a, b[..|b| - 1]);
    }
  }

  /**
   * The last key of a run fires exactly when it completes the trigger, typed at or above the paste
   * threshold, from a point where the detector held nothing.
   */
  lemma TriggerExactly(trigger: seq<byte>, keys: seq<Key>)
    requires trigger != [] && keys != []
    ensures Feed(Fed(NewDetector(trigger), keys[..|keys| - 1]), keys[|keys| - 1]).1.Trigger? <==>
      |trigger| <= |keys| && Typed(LastKeys(keys, |trigger|), trigger) &&
      Fed(NewDetector(trigger), keys[..|keys| - |trigger|]).buffered == []
  {
    var d := NewDetector(trigger);
    if Feed(Fed(d, keys[..|keys| - 1]), keys[|keys| - 1]).1.Trigger? {
      RunTracks(trigger, keys[..|keys| - 1]);
      StepTracks(Fed(d, keys[..|keys| - 1]), keys);
      HeldNothingBefore(trigger, keys);
    }
    if |trigger| <= |keys| && Typed(LastKeys(keys, |trigger|), trigger) {
      if Fed(d, keys[..|keys| - |trigger|]).buffered == [] {
        SplitAt(keys, |keys| - |trigger|);
        TypedFiresLater(trigger, keys, keys[..|keys| - |trigger|], keys[|keys| - |trigger|..]);
      }
    }
  }

  lemma TypedFiresLater(trigger: seq<byte>, keys: seq<Key>, early: seq<Key>, word: seq<Key>)
    requires trigger != [] && keys == early + word && Typed(word, trigger)
    requires Fed(NewDetector(trigger), early).buffered == []
    ensures keys != [] && Feed(Fed(NewDetector(trigger), keys[..|keys| - 1]), keys[|keys| - 1]).1.Trigger?
  {
    TypedFiresAfter(trigger, early, word);
    ConcatFront(early, word);
  }

  lemma TypedFiresAfter(trigger: seq<byte>, early: seq<Key>, word: seq<Key>)
    requires trigger != [] && Typed(word, trigger) && Fed(NewDetector(trigger), early).buffered == []
    ensures |word| == |trigger|
    ensures Feed(Fed(NewDetector(trigger), early + word[..|word| - 1]), word[|word| - 1]).1.Trigger?
  {
    Whole(trigger);
    TypedFires(Fed(NewDetector(trigger), early), word);
    FedConcat(NewDetector(trigger), early, word[..|word| - 1]);
  }

  lemma FedSnoc(d: Detector, keys: seq<Key>, k: Key)
    requires d.Valid()
    ensures Fed(d, keys + [k]) == Feed(Fed(d, keys), k).0
  {
    ConcatFront(keys, [k]);
    Unit(keys);
  }

  /** A held prefix of length n means that nothing was held n keys ago. */
  ghost predicate HeldSince(d: Detector, keys: seq<Key>)
    requires d.Valid()
  {
    var n := Fed(d, keys).matched;
    n <= |keys| && Fed(d, keys[..|keys| - n]).matched == 0
  }

  lemma HeldSinceStep(d: Detector, keys: seq<Key>, k: Key)
    requires d.Valid() && HeldSince(d, keys)
    ensures HeldSince(d, keys + [k])
  {
    var more, m := keys + [k], Fed(d, keys).matched;
    FedSnoc(d, keys, k);
    Matched(Fed(d, keys), k);
    if Fed(d, more).matched == 0 {
      Whole(more);
    } else {
      DropWithin(keys, [k], |keys| - m);
      assert |more| - Fed(d, more).matched == |keys| - m;
    }
  }

  lemma {:induction false} AlwaysHeldSince(trigger: seq<byte>, keys: seq<Key>)
    ensures HeldSince(NewDetector(trigger), keys)
    decreases |keys|
  {
    if keys != [] {
      AlwaysHeldSince(trigger, keys[..|keys| - 1]);
      HeldSinceStep(NewDetector(trigger), keys[..|keys| - 1], keys[|keys| - 1]);
      Snoc(keys);
    }
  }

  lemma HeldNothingBefore(trigger: seq<byte>, keys: seq<Key>)
    requires trigger != [] && keys != []
    requires Feed(Fed(NewDetector(trigger), keys[..|keys| - 1]), keys[|keys| - 1]).1.Trigger?
    ensures |trigger| <= |keys| && Fed(NewDetector(trigger), keys[..|keys| - |trigger|]).buffered == []
  {
    var front := keys[..|keys| - 1];
    AlwaysHeldSince(trigger, front);
    Matched(Fed(NewDetector(trigger), front), keys[|keys| - 1]);
    TakeTake(keys, |keys| - 1, |keys| - |trigger|);
  }
}
