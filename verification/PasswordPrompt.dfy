/** The rolling prompt buffer: the tail of the remote's text, cut at a character boundary. */
module PasswordPrompt {
  import opened Octets
  import opened Sequences
  import opened Utf8

  const BUFFER_CAP: nat := 256

  datatype PromptKind = NoPrompt | Sudo | Generic

  /** The two groups of prompt patterns, matched against the whole buffer. */
  datatype Patterns = Patterns(sudo: seq<byte> -> bool, generic: seq<byte> -> bool)

  function Classify(patterns: Patterns, buffer: seq<byte>): PromptKind {
    if patterns.sudo(buffer) then Sudo else if patterns.generic(buffer) then Generic else NoPrompt
  }

  // ---- the tail of a text ----

  function NextBoundary(s: seq<byte>, i: nat): (r: nat)
    requires i <= |s|
    ensures i <= r <= |s| && IsBoundary(s, r)
    ensures forall j :: i <= j < r ==> !IsBoundary(s, j)
    decreases |s| - i
  {
    if IsBoundary(s, i) then i else NextBoundary(s, i + 1)
  }

  function TailStart(s: seq<byte>): (r: nat)
    ensures r <= |s|
  {
    if |s| <= BUFFER_CAP then 0 else NextBoundary(s, |s| - BUFFER_CAP)
  }

  function Tail(s: seq<byte>): seq<byte> {
    s[TailStart(s)..]
  }

  /** `i` starts a suffix of `s` of whole characters that fits the buffer. */
  predicate Fits(s: seq<byte>, i: nat) {
    i <= |s| && |s| - i <= BUFFER_CAP && IsText(s[i..])
  }

  /** The tail is the longest suffix of whole characters that fits. */
  lemma TailIsLongest(s: seq<byte>, i: nat)
    requires IsText(s)
    ensures Fits(s, TailStart(s))
    ensures Fits(s, i) ==> TailStart(s) <= i
  {
    BoundaryStartsText(s, TailStart(s));
    if i <= |s| {
      BoundaryStartsText(s, i);
    }
  }

  lemma {:induction false} BoundaryNear(s: seq<byte>, i: nat)
    requires IsText(s) && i <= |s|
    ensures NextBoundary(s, i) <= i + 3
    decreases |s|
  {
    if i > 0 {
      var n := Decode(s).len;
      assert IsBoundary(s, n);
      if i >= n {
        BoundaryNear(s[n..], i - n);
        NextBoundaryAfterDrop(s, s[n..], n, i - n);
      }
    }
  }

  /** The tail holds at most 256 bytes; all of a text that short, and at least 253 of a longer one. */
  lemma TailBounds(s: seq<byte>)
    ensures |Tail(s)| <= 256
    ensures |s| <= 256 ==> Tail(s) == s
    ensures IsText(s) && |s| > 256 ==> |Tail(s)| >= 253
  {
    if IsText(s) && |s| > 256 {
      BoundaryNear(s, |s| - 256);
    }
  }

  /** Keeping only the tail before more text arrives changes nothing. */
  lemma TailOfTail(a: seq<byte>, b: seq<byte>)
    requires IsText(a) && IsText(b)
    ensures Tail(Tail(a) + b) == Tail(a + b)
  {
    TailIsLongest(a, TailStart(a));
    TextConcat(a, b);
    TextConcat(Tail(a), b);
    TailStartsAfter(a, b);
    DropWithin(a, b, TailStart(a));
    TailAfterDrop(a + b, TailStart(a));
  }

  lemma TailAfterDrop(s: seq<byte>, i: nat)
    requires IsText(s) && i <= TailStart(s) && IsText(s[i..])
    ensures Tail(s[i..]) == Tail(s)
  {
    BoundaryStartsText(s, i);
    TailStartAfterDrop(s, s[i..], i);
    DropDrop(s, i, TailStart(s[i..]));
  }

  lemma TailStartAfterDrop(s: seq<byte>, x: seq<byte>, i: nat)
    requires i <= TailStart(s) && IsBoundary(s, i) && x == s[i..]
    ensures TailStart(s) == i + TailStart(x)
  {
    if |x| > BUFFER_CAP {
      NextBoundaryAfterDrop(s, x, i, |x| - BUFFER_CAP);
    }
  }

  lemma {:induction false} NextBoundaryAfterDrop(s: seq<byte>, x: seq<byte>, i: nat, k: nat)
    requires i + k <= |s| && IsBoundary(s, i) && x == s[i..]
    ensures NextBoundary(s, i + k) == i + NextBoundary(x, k)
    decreases |x| - k
  {
    if k < |x| && !IsBoundary(x, k) {
      NextBoundaryAfterDrop(s, x, i, k + 1);
    }
  }

  lemma TailStartsAfter(a: seq<byte>, b: seq<byte>)
    requires IsText(a) && IsText(b)
    ensures TailStart(a) <= TailStart(a + b)
  {
    var j := TailStart(a + b);
    TextConcat(a, b);
    TailIsLongest(a + b, j);
    if j <= |a| {
      BoundaryStartsText(a + b, j);
      BoundaryStartsText(a, j);
      TailIsLongest(a, j);
    }
  }

  // ---- runs of feeds ----

  /** The buffer after one feed; empty text leaves it alone. */
  function FedOne(buffer: seq<byte>, data: seq<byte>): seq<byte> {
    if Extract(data) == [] then buffer else Tail(buffer + Extract(data))
  }

  function FedAll(buffer: seq<byte>, feeds: seq<seq<byte>>): seq<byte>
    decreases |feeds|
  {
    if feeds == [] then buffer else FedAll(FedOne(buffer, feeds[0]), feeds[1..])
  }

  function AllText(feeds: seq<seq<byte>>): seq<byte> {
    if feeds == [] then [] else Extract(feeds[0]) + AllText(feeds[1..])
  }

  lemma FedOneIsTail(text: seq<byte>, data: seq<byte>)
    requires IsText(text)
    ensures IsText(text + Extract(data))
    ensures FedOne(Tail(text), data) == Tail(text + Extract(data))
  {
    ExtractIsText(data);
    TextConcat(text, Extract(data));
    if Extract(data) == [] {
      Unit(text);
    } else {
      TailOfTail(text, Extract(data));
    }
  }

  lemma {:induction false} FedAllIsTail(text: seq<byte>, feeds: seq<seq<byte>>)
    requires IsText(text)
    ensures FedAll(Tail(text), feeds) == Tail(text + AllText(feeds))
    decreases |feeds|
  {
    if feeds == [] {
      Unit(text);
    } else {
      FedOneIsTail(text, feeds[0]);
      FedAllIsTail(text + Extract(feeds[0]), feeds[1..]);
      Assoc(text, Extract(feeds[0]), AllText(feeds[1..]));
    }
  }

  /**
   * After any feeds since the last clear the buffer is the tail of all extracted text; so what is
   * detected depends on that text alone, not on how it was cut.
   */
  lemma BufferDependsOnTextOnly(feeds: seq<seq<byte>>, others: seq<seq<byte>>)
    ensures FedAll([], feeds) == Tail(AllText(feeds))
    ensures AllText(feeds) == AllText(others) ==> FedAll([], feeds) == FedAll([], others)
  {
    assert Tail([]) == [];
    FedAllIsTail([], feeds);
    FedAllIsTail([], others);
    Unit(AllText(feeds));
    Unit(AllText(others));
  }

  function Joined(feeds: seq<seq<byte>>): seq<byte> {
    if feeds == [] then [] else feeds[0] + Joined(feeds[1..])
  }

  /** Raw output that is never cut inside a character leaves the tail of the whole output's text. */
  lemma {:induction false} CleanCutsAreInvisible(feeds: seq<seq<byte>>)
    requires forall i :: 0 <= i < |feeds| ==> NoCutOff(feeds[i])
    ensures AllText(feeds) == Extract(Joined(feeds))
    ensures FedAll([], feeds) == Tail(Extract(Joined(feeds)))
    decreases |feeds|
  {
    if feeds != [] {
      CleanCutsAreInvisible(feeds[1..]);
      ExtractCut(feeds[0], Joined(feeds[1..]));
    }
    BufferDependsOnTextOnly(feeds, feeds);
  }

  // ---- the detector ----

  /** Extraction as a loop over the standard library's verdicts. */
  method ExtractValidUtf8(data: seq<byte>) returns (result: seq<byte>)
    ensures result == Extract(data)
    ensures IsText(result)
  {
    result := [];
    var remaining := data;
    while remaining != []
      invariant result + Extract(remaining) == Extract(data)
      decreases |remaining|
    {
      FromUtf8Extracts(remaining);
      var verdict := FromUtf8(remaining);
      if verdict.Ok? {
        result := result + remaining;
        remaining := [];
        Unit(result);
      } else {
        Assoc(result, verdict.valid, Extract(verdict.rest));
        result := result + verdict.valid;
        remaining := verdict.rest;
      }
    }
    ExtractIsText(data);
  }

  class PasswordDetector {
    const patterns: Patterns
    const hasPassword: bool
    var buffer: seq<byte>

    constructor (patterns: Patterns, hasPassword: bool)
      ensures buffer == [] && this.patterns == patterns && this.hasPassword == hasPassword
    {
      this.patterns, this.hasPassword := patterns, hasPassword;
      buffer := [];
    }

    /** Without a password to look for, and for data without text, nothing is scanned. */
    method Feed(data: seq<byte>) returns (kind: PromptKind)
      modifies this
      ensures buffer == if hasPassword then FedOne(old(buffer), data) else old(buffer)
      ensures kind == if hasPassword && Extract(data) != [] then Classify(patterns, buffer) else NoPrompt
    {
      if !hasPassword {
        return NoPrompt;
      }
      var more := ExtractValidUtf8(data);
      if more == [] {
        return NoPrompt;
      }
      buffer := buffer + more;
      TrimBuffer();
      kind := if patterns.sudo(buffer) then Sudo else if patterns.generic(buffer) then Generic else NoPrompt;
    }

    /** Keep the tail, advancing the cut to the next character boundary. */
    method TrimBuffer()
      modifies this`buffer
      ensures buffer == Tail(old(buffer))
    {
      if |buffer| > BUFFER_CAP {
        var boundary := |buffer| - BUFFER_CAP;
        while !IsBoundary(buffer, boundary)
          invariant |buffer| - BUFFER_CAP <= boundary <= |buffer|
          invariant NextBoundary(buffer, boundary) == NextBoundary(buffer, |buffer| - BUFFER_CAP)
          decreases |buffer| - boundary
        {
          boundary := boundary + 1;
        }
        buffer := buffer[boundary..];
      }
    }

    method Clear()
      modifies this
      ensures buffer == []
    {
      buffer := [];
    }
  }
}
