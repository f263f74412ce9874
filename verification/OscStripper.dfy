/** The title stripper: a seven-state filter carried across chunks, proved against OscTokens. */
module OscStripper {
  import opened Octets
  import opened Sequences
  import opened OscTokens

  datatype StripState = Normal | Esc | OscCode | OscSkip | OscPass | OscSkipEsc | OscPassEsc

  class OscTitleStripper {
    var state: StripState
    var codeBuf: seq<byte>
    ghost var seen: seq<byte>  // everything fed since construction

    /** The machine state for an unfinished token `q`. */
    ghost predicate Matches(q: Rest)
      reads this
    {
      match q
      case Nothing => state == Normal
      case AfterEsc => state == Esc
      case InCode(code) => state == OscCode && codeBuf == code
      case InBody(code, _, esc) =>
        state == if IsTitleCode(code) then (if esc then OscSkipEsc else OscSkip)
                 else if esc then OscPassEsc else OscPass
    }

    /** The machine state is what the grammar says about the bytes seen. */
    ghost predicate Valid()
      reads this
    {
      Matches(Parse(seen).rest)
    }

    constructor ()
      ensures Valid() && seen == []
    {
      state := Normal;
      codeBuf := [];
      seen := [];
    }

    method ShouldStrip() returns (r: bool)
      ensures r == IsTitleCode(codeBuf)
    {
      r := codeBuf == [0x30] || codeBuf == [0x32] || codeBuf == [0x31, 0x30]
        || codeBuf == [0x31, 0x31] || codeBuf == [0x31, 0x32];
    }

    /** A byte of the numeric code, or the one that ends it. */
    method CodeByte(b: byte, ghost code: seq<byte>) returns (out: seq<byte>)
      requires Matches(InCode(code))
      modifies this`state, this`codeBuf
      ensures Matches(Feed(Reading(Nil, InCode(code)), b).rest)
      ensures Passes(InCode(code), b, out)
    {
      out := [];
      var strip := ShouldStrip();
      if b == SEMICOLON {
        if strip {
          state := OscSkip;
        } else {
          out := [ESC, BRACKET] + codeBuf + [SEMICOLON];
          state := OscPass;
        }
      } else if b == BEL {
        if !strip {
          out := [ESC, BRACKET] + codeBuf + [BEL];
        }
        state := Normal;
      } else if IsDigit(b) {
        codeBuf := codeBuf + [b];
      } else {
        out := [ESC, BRACKET] + codeBuf + [b];
        state := Normal;
      }
    }

    /** A byte of the body of a title. */
    method SkippedByte(b: byte, ghost q: Rest)
      requires q.InBody? && IsTitleCode(q.code) && Matches(q)
      modifies this`state
      ensures Matches(Feed(Reading(Nil, q), b).rest)
      ensures Passes(q, b, [])
    {
      if state == OscSkipEsc {
        state := if b == BACKSLASH then Normal else OscSkip;
      } else if b == BEL {
        state := Normal;
      } else if b == ESC {
        state := OscSkipEsc;
      }
    }

    /** A byte of the body of any other OSC. */
    method PassedByte(b: byte, ghost q: Rest) returns (out: seq<byte>)
      requires q.InBody? && !IsTitleCode(q.code) && Matches(q)
      modifies this`state
      ensures Matches(Feed(Reading(Nil, q), b).rest)
      ensures Passes(q, b, out)
    {
      out := [];
      if state == OscPassEsc {
        out := [ESC, b];
        state := if b == BACKSLASH then Normal else OscPass;
      } else if b == BEL {
        out := [BEL];
        state := Normal;
      } else if b == ESC {
        state := OscPassEsc;
      } else {
        out := [b];
      }
    }

    /** The transition on one byte, after the unfinished token `q`. */
    method Transition(b: byte, ghost q: Rest) returns (out: seq<byte>)
      requires Matches(q)
      modifies this`state, this`codeBuf
      ensures Matches(Feed(Reading(Nil, q), b).rest)
      ensures Passes(q, b, out)
    {
      out := [];
      match state {
        case Normal =>
          if b == ESC {
            state := Esc;
          } else {
            out := [b];
          }
        case Esc =>
          if b == BRACKET {
            state := OscCode;
            codeBuf := [];
          } else {
            out := [ESC, b];
            state := Normal;
          }
        case OscCode =>
          out := CodeByte(b, q.code);
        case OscSkip =>
          SkippedByte(b, q);
        case OscSkipEsc =>
          SkippedByte(b, q);
        case OscPass =>
          out := PassedByte(b, q);
        case OscPassEsc =>
          out := PassedByte(b, q);
      }
    }

    method StripByte(b: byte) returns (out: seq<byte>)
      requires Valid()
      modifies this
      ensures Valid() && seen == old(seen) + [b]
      ensures Stripped(seen) == Stripped(old(seen)) + out
    {
      out := Transition(b, Parse(seen).rest);
      StrippedGrows(seen, b, out);
      FeedTail(Parse(seen), b);
      seen := seen + [b];
    }

    /** One chunk of terminal data. */
    method Strip(data: seq<byte>) returns (out: seq<byte>)
      requires Valid()
      modifies this
      ensures Valid() && seen == old(seen) + data
      ensures Stripped(seen) == Stripped(old(seen)) + out
    {
      ghost var before, base := seen, Stripped(seen);
      out := [];
      var i := 0;
      while i < |data|
        invariant 0 <= i <= |data|
        invariant Valid() && seen == before + data[..i]
        invariant Stripped(seen) == base + out
      {
        var more := StripByte(data[i]);
        Regroup(before, data, i, base, out, more);
        out := out + more;
        i := i + 1;
      }
    }
  }

  lemma Regroup(before: seq<byte>, data: seq<byte>, i: nat, base: seq<byte>, out: seq<byte>, more: seq<byte>)
    requires i < |data|
    ensures before + data[..i] + [data[i]] == before + data[..i + 1]
    ensures base + out + more == base + (out + more)
  {
  }

  function Flatten(chunks: seq<seq<byte>>): seq<byte> {
    if chunks == [] then [] else Flatten(chunks[..|chunks| - 1]) + chunks[|chunks| - 1]
  }

  lemma FlattenMore(chunks: seq<seq<byte>>, i: nat)
    requires i < |chunks|
    ensures Flatten(chunks[..i + 1]) == Flatten(chunks[..i]) + chunks[i]
  {
    TakeTake(chunks, i + 1, i);
  }

  /** However a stream is cut into chunks, the concatenated output is the stripped stream. */
  method StripChunks(chunks: seq<seq<byte>>) returns (out: seq<byte>)
    ensures out == Stripped(Flatten(chunks))
  {
    var stripper := new OscTitleStripper();
    out := [];
    assert Stripped([]) == [];
    var i := 0;
    while i < |chunks|
      invariant 0 <= i <= |chunks|
      invariant stripper.Valid() && stripper.seen == Flatten(chunks[..i])
      invariant out == Stripped(stripper.seen)
    {
      var more := stripper.Strip(chunks[i]);
      out := out + more;
      FlattenMore(chunks, i);
      i := i + 1;
    }
    Whole(chunks);
  }
}
