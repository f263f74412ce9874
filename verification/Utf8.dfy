/** UTF-8 as the standard library validates it, and the extraction of valid text from raw bytes. */
module Utf8 {
  import opened Options
  import opened Octets
  import opened Sequences

  predicate IsContinuation(b: byte) {
    0x80 <= b <= 0xbf
  }

  /** Length of the character that `b` may start; 0 when it starts none. */
  function CharWidth(b: byte): nat {
    if b < 0x80 then 1
    else if 0xc2 <= b <= 0xdf then 2
    else if 0xe0 <= b <= 0xef then 3
    else if 0xf0 <= b <= 0xf4 then 4
    else 0
  }

  /** May `b` follow the first byte of a character?  Shuts out overlong forms and surrogates. */
  predicate IsSecond(first: byte, b: byte) {
    if first == 0xe0 then 0xa0 <= b <= 0xbf
    else if first == 0xed then 0x80 <= b <= 0x9f
    else if first == 0xf0 then 0x90 <= b <= 0xbf
    else if first == 0xf4 then 0x80 <= b <= 0x8f
    else IsContinuation(b)
  }

  /** The start of a byte string: a character, a number of bytes to skip, or a cut-off character. */
  datatype Start = Char(len: nat) | Bad(skip: nat) | CutOff

  function Decode(s: seq<byte>): (r: Start)
    requires s != []
    ensures r.Char? ==> 1 <= r.len <= |s|
    ensures r.Bad? ==> 1 <= r.skip <= |s|
  {
    var w := CharWidth(s[0]);
    if w == 1 then Char(1)
    else if w == 0 then Bad(1)
    else if |s| == 1 then CutOff
    else if !IsSecond(s[0], s[1]) then Bad(1)
    else if w == 2 then Char(2)
    else if |s| == 2 then CutOff
    else if !IsContinuation(s[2]) then Bad(2)
    else if w == 3 then Char(3)
    else if |s| == 3 then CutOff
    else if !IsContinuation(s[3]) then Bad(3)
    else Char(4)
  }

  predicate IsText(s: seq<byte>) {
    s == [] || (Decode(s).Char? && IsText(s[Decode(s).len..]))
  }

  /**
   * The standard library's verdict on a byte string: all valid, or the valid text before the first
   * error and the bytes to go on with after it (none after a cut-off character).
   */
  datatype Verdict = Ok | Err(valid: seq<byte>, rest: seq<byte>)

  function FromUtf8(s: seq<byte>): (r: Verdict)
    ensures r.Err? ==> |r.valid| + |r.rest| < |s|
  {
    if s == [] then Ok
    else
      match Decode(s)
      case Bad(k) => Err([], s[k..])
      case CutOff => Err([], [])
      case Char(n) =>
        var later := FromUtf8(s[n..]);
        if later.Ok? then Ok else Err(s[..n] + later.valid, later.rest)
  }

  /** What comes before the error is text, and is the whole input exactly when there is no error. */
  lemma {:induction false} VerdictIsRight(s: seq<byte>)
    ensures FromUtf8(s).Ok? <==> IsText(s)
    ensures FromUtf8(s).Err? ==> IsText(FromUtf8(s).valid)
    decreases |s|
  {
    if s != [] && Decode(s).Char? {
      var n := Decode(s).len;
      VerdictIsRight(s[n..]);
      var later := FromUtf8(s[n..]);
      if later.Err? {
        TextOfChar(s);
        TextConcat(s[..n], later.valid);
      }
    }
  }

  /** The valid characters of `s`, in order; bytes that belong to none are left out. */
  function Extract(s: seq<byte>): seq<byte> {
    if s == [] then []
    else
      match Decode(s)
      case Char(n) => s[..n] + Extract(s[n..])
      case Bad(k) => Extract(s[k..])
      case CutOff => []
  }

  /** One turn of the extraction loop: keep the valid text and go on after the error. */
  lemma {:induction false} FromUtf8Extracts(s: seq<byte>)
    ensures Extract(s) == match FromUtf8(s)
      case Ok => s
      case Err(valid, rest) => valid + Extract(rest)
    decreases |s|
  {
    if s != [] {
      match Decode(s)
      case Bad(k) => Unit(Extract(s[k..]));
      case CutOff => assert Extract([]) == [];
      case Char(n) =>
        FromUtf8Extracts(s[n..]);
        SplitAt(s, n);
        var later := FromUtf8(s[n..]);
        if later.Err? {
          Assoc(s[..n], later.valid, Extract(later.rest));
        }
    }
  }

  /** Decoding a character looks at its own bytes only. */
  lemma DecodeLocal(s: seq<byte>, tail: seq<byte>)
    requires s != [] && !Decode(s).CutOff?
    ensures Decode(s + tail) == Decode(s)
    ensures Decode(s).Char? ==> Decode(s[..Decode(s).len] + tail) == Decode(s)
  {
  }

  lemma {:induction false} TextConcat(a: seq<byte>, b: seq<byte>)
    requires IsText(a) && IsText(b)
    ensures IsText(a + b)
    decreases |a|
  {
    if a == [] {
      Unit(b);
    } else {
      var n := Decode(a).len;
      DecodeLocal(a, b);
      DropWithin(a, b, n);
      TextConcat(a[n..], b);
    }
  }

  lemma TextOfChar(s: seq<byte>)
    requires s != [] && Decode(s).Char?
    ensures IsText(s[..Decode(s).len])
  {
    var c := s[..Decode(s).len];
    DecodeLocal(s, []);
    Unit(c);
    Whole(c);
  }

  /** What is extracted is valid text. */
  lemma {:induction false} ExtractIsText(s: seq<byte>)
    ensures IsText(Extract(s))
    decreases |s|
  {
    if s != [] {
      match Decode(s)
      case Char(n) =>
        ExtractIsText(s[n..]);
        TextOfChar(s);
        TextConcat(s[..n], Extract(s[n..]));
      case Bad(k) => ExtractIsText(s[k..]);
      case CutOff =>
    }
  }

  /** Every character of `s` that starts is also finished. */
  predicate NoCutOff(s: seq<byte>) {
    s == [] ||
    match Decode(s)
    case Char(n) => NoCutOff(s[n..])
    case Bad(k) => NoCutOff(s[k..])
    case CutOff => false
  }

  /** Cutting a stream between characters does not change the extracted text. */
  lemma {:induction false} ExtractCut(a: seq<byte>, b: seq<byte>)
    requires NoCutOff(a)
    ensures Extract(a + b) == Extract(a) + Extract(b)
    decreases |a|
  {
    if a == [] {
      Unit(Extract(b));
      Unit(b);
    } else {
      DecodeLocal(a, b);
      var n := if Decode(a).Char? then Decode(a).len else Decode(a).skip;
      DropWithin(a, b, n);
      ExtractCut(a[n..], b);
      Assoc(a[..n], Extract(a[n..]), Extract(b));
    }
  }

  /** Bytes that finish the character that `s` begins. */
  function Finish(s: seq<byte>): seq<byte>
    requires s != [] && Decode(s).CutOff?
  {
    var w := CharWidth(s[0]);
    var second: byte := if s[0] == 0xe0 then 0xa0 else if s[0] == 0xf0 then 0x90 else 0x80;
    if |s| > 1 then Padding(w - |s|) else [second] + Padding(w - 2)
  }

  function Padding(n: nat): seq<byte> {
    if n == 0 then [] else [0x80] + Padding(n - 1)
  }

  lemma {:induction false} PaddingIsLost(n: nat)
    ensures |Padding(n)| == n && Extract(Padding(n)) == []
    ensures forall i :: 0 <= i < n ==> Padding(n)[i] == 0x80
  {
    if n > 0 {
      PaddingIsLost(n - 1);
      assert Padding(n)[1..] == Padding(n - 1);
    }
  }

  lemma FinishIsLost(s: seq<byte>)
    requires s != [] && Decode(s).CutOff?
    ensures Extract(Finish(s)) == [] && Decode(s + Finish(s)) == Char(|s + Finish(s)|)
  {
    var w := CharWidth(s[0]);
    if |s| > 1 {
      PaddingIsLost(w - |s|);
    } else {
      PaddingIsLost(w - 2);
      assert Finish(s)[1..] == Padding(w - 2);
    }
  }

  /** Cutting inside a character loses it. */
  lemma {:induction false} CutCharacterIsLost(a: seq<byte>) returns (b: seq<byte>)
    requires !NoCutOff(a)
    ensures Extract(b) == [] && |Extract(a + b)| > |Extract(a)|
    decreases |a|
  {
    if Decode(a).CutOff? {
      b := Finish(a);
      FinishIsLost(a);
      Whole(a + b);
    } else {
      var n := if Decode(a).Char? then Decode(a).len else Decode(a).skip;
      b := CutCharacterIsLost(a[n..]);
      DecodeLocal(a, b);
      DropWithin(a, b, n);
    }
  }

  /** A stream may be cut after `a` without loss, whatever follows, exactly when no character is cut. */
  lemma CutExactly(a: seq<byte>)
    ensures NoCutOff(a) <==> forall b :: Extract(a + b) == Extract(a) + Extract(b)
  {
    if NoCutOff(a) {
      forall b ensures Extract(a + b) == Extract(a) + Extract(b) {
        ExtractCut(a, b);
      }
    } else {
      var b := CutCharacterIsLost(a);
      Unit(Extract(a));
      assert Extract(a + b) != Extract(a) + Extract(b);
    }
  }

  // ---- character boundaries ----

  predicate IsBoundary(s: seq<byte>, i: nat)
    requires i <= |s|
  {
    i == 0 || i == |s| || !IsContinuation(s[i])
  }

  /** In valid text the boundaries are the places where a whole-character suffix starts. */
  lemma {:induction false} BoundaryStartsText(s: seq<byte>, i: nat)
    requires IsText(s) && i <= |s|
    ensures IsBoundary(s, i) <==> IsText(s[i..])
    decreases |s|
  {
    if i == 0 {
      Whole(s);
    } else if i < |s| {
      var n := Decode(s).len;
      if i < n {
        assert s[i..][0] == s[i];
      } else {
        BoundaryStartsText(s[n..], i - n);
        DropDrop(s, n, i - n);
      }
    }
  }
}
