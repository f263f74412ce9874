/** The characters that UTF-8 text stands for, by section 3 of RFC 3629. */
module Utf8Scalars {
  import opened Octets
  import opened Sequences
  import opened Utf8
  import opened ProxyPassword

  /** A Unicode scalar value: a code point that is no surrogate. */
  predicate IsScalar(v: nat) {
    v <= 0x10ffff && !(0xd800 <= v <= 0xdfff)
  }

  /** The value held by a first byte that marks `mark`, and by the bytes that follow it. */
  function Value(s: seq<byte>, mark: byte): int
    requires s != []
    decreases |s|
  {
    if |s| == 1 then (s[0] as int) - (mark as int)
    else Value(s[..|s| - 1], mark) * 0x40 + (s[|s| - 1] as int - 0x80)
  }

  /** The first byte marks how many follow, each of those holds six bits, and the shortest form is used. */
  predicate IsEncoding(s: seq<byte>, v: nat) {
    && (forall i :: 1 <= i < |s| ==> 0x80 <= s[i] < 0xc0)
    && (|s| == 1 ==> Value(s, 0x00) == v < 0x80)
    && (|s| == 2 ==> 0xc0 <= s[0] && Value(s, 0xc0) == v && 0x80 <= v < 0x800)
    && (|s| == 3 ==> 0xe0 <= s[0] && Value(s, 0xe0) == v && 0x800 <= v < 0x1_0000)
    && (|s| == 4 ==> 0xf0 <= s[0] && Value(s, 0xf0) == v && 0x1_0000 <= v)
    && 1 <= |s| <= 4
  }

  lemma ValueOf(s: seq<byte>, mark: byte)
    requires 1 <= |s| <= 4
    ensures var a := s[0] as int - mark as int;
      Value(s, mark) ==
      if |s| == 1 then a
      else if |s| == 2 then a * 0x40 + (s[1] as int - 0x80)
      else if |s| == 3 then a * 0x1000 + (s[1] as int - 0x80) * 0x40 + (s[2] as int - 0x80)
      else a * 0x4_0000 + (s[1] as int - 0x80) * 0x1000 + (s[2] as int - 0x80) * 0x40 + (s[3] as int - 0x80)
  {
    if |s| > 1 {
      ValueOf(s[..|s| - 1], mark);
    }
  }

  /** What starts with a character, by the decoder, is exactly what starts with the encoding of a scalar. */
  lemma CharExactly(s: seq<byte>, n: nat, v: nat)
    requires 1 <= n <= |s| && IsEncoding(s[..n], v) && IsScalar(v)
    ensures Decode(s) == Char(n)
  {
    var mark: byte := if n == 1 then 0 else if n == 2 then 0xc0 else if n == 3 then 0xe0 else 0xf0;
    ValueOf(s[..n], mark);
  }

  lemma CharIsScalar(s: seq<byte>) returns (v: nat)
    requires s != [] && Decode(s).Char?
    ensures IsScalar(v) && IsEncoding(s[..Decode(s).len], v)
  {
    var n := Decode(s).len;
    var mark: byte := if n == 1 then 0 else if n == 2 then 0xc0 else if n == 3 then 0xe0 else 0xf0;
    ValueOf(s[..n], mark);
    v := Value(s[..n], mark);
  }

  lemma {:induction false} ValueUnique(s: seq<byte>, t: seq<byte>, mark: byte)
    requires 1 <= |s| == |t| && Value(s, mark) == Value(t, mark)
    requires forall i :: 1 <= i < |s| ==> 0x80 <= s[i] < 0xc0 && 0x80 <= t[i] < 0xc0
    ensures s == t
    decreases |s|
  {
    if |s| > 1 {
      ValueUnique(s[..|s| - 1], t[..|t| - 1], mark);
      Snoc(s);
      Snoc(t);
    }
  }

  /** One value has one encoding. */
  lemma EncodingUnique(s: seq<byte>, t: seq<byte>, v: nat)
    requires IsEncoding(s, v) && IsEncoding(t, v)
    ensures s == t
  {
    assert |s| == |t|;
    ValueUnique(s, t, if |s| == 1 then 0 else if |s| == 2 then 0xc0 else if |s| == 3 then 0xe0 else 0xf0);
  }

  // ---- errors ----

  /** Some character starts with `p`, or is followed by the rest of it. */
  ghost predicate CanGoOn(p: seq<byte>) {
    exists more :: p + more != [] && Decode(p + more).Char?
  }

  lemma GoesOn(p: seq<byte>, more: seq<byte>)
    requires p + more != [] && Decode(p + more).Char?
    ensures CanGoOn(p)
  {
  }

  lemma CutOffGoesOn(s: seq<byte>)
    requires s != [] && Decode(s).CutOff?
    ensures CanGoOn(s)
  {
    var w := CharWidth(s[0]);
    if |s| == 1 {
      var second: byte := if s[0] == 0xe0 then 0xa0 else if s[0] == 0xf0 then 0x90 else 0x80;
      GoesOn(s, [second, 0x80, 0x80]);
    } else {
      GoesOn(s, [0x80, 0x80]);
    }
  }

  /**
   * A cut-off character is one that could still be completed.  An error takes the longest beginning
   * that could have been, and at least one byte.
   */
  lemma ErrorExactly(s: seq<byte>, n: nat)
    requires s != []
    ensures Decode(s).CutOff? ==> CanGoOn(s)
    ensures Decode(s).Bad? ==> !CanGoOn(s) && (Decode(s).skip == 1 || CanGoOn(s[..Decode(s).skip]))
    ensures Decode(s).Bad? && Decode(s).skip < n <= |s| ==> !CanGoOn(s[..n])
  {
    if Decode(s).CutOff? {
      CutOffGoesOn(s);
    } else if Decode(s).Bad? {
      var k := Decode(s).skip;
      NeverGoesOn(s);
      if k > 1 {
        CutOffGoesOn(s[..k]);
      }
      if k < n <= |s| {
        assert Decode(s[..n]) == Bad(k);
        NeverGoesOn(s[..n]);
      }
    }
  }

  lemma NeverGoesOn(s: seq<byte>)
    requires s != [] && Decode(s).Bad?
    ensures !CanGoOn(s)
  {
    forall more ensures Decode(s + more).Bad? {
      DecodeLocal(s, more);
    }
  }

  // ---- texts ----

  /** The text holds these characters, in order. */
  ghost predicate Spells(s: seq<byte>, vs: seq<nat>)
    decreases |vs|
  {
    if vs == [] then s == []
    else exists n :: 1 <= n <= |s| && IsEncoding(s[..n], vs[0]) && Spells(s[n..], vs[1..])
  }

  /** Bytes are text exactly when they are the encodings of scalar values, one after the other. */
  lemma {:induction false} TextSpells(s: seq<byte>) returns (vs: seq<nat>)
    requires IsText(s)
    ensures (forall v :: v in vs ==> IsScalar(v)) && Spells(s, vs)
    decreases |s|
  {
    if s == [] {
      vs := [];
    } else {
      var n := Decode(s).len;
      var v := CharIsScalar(s);
      var more := TextSpells(s[n..]);
      vs := [v] + more;
      assert vs[1..] == more;
    }
  }

  lemma {:induction false} SpelledIsText(s: seq<byte>, vs: seq<nat>)
    requires (forall v :: v in vs ==> IsScalar(v)) && Spells(s, vs)
    ensures IsText(s)
    decreases |vs|
  {
    if vs != [] {
      var n :| 1 <= n <= |s| && IsEncoding(s[..n], vs[0]) && Spells(s[n..], vs[1..]);
      assert vs[0] in vs && forall v :: v in vs[1..] ==> v in vs;
      CharExactly(s, n, vs[0]);
      SpelledIsText(s[n..], vs[1..]);
    }
  }

  lemma SpellsFirst(head: seq<byte>, rest: seq<byte>, v: nat, vs: seq<nat>)
    requires IsEncoding(head, v) && Spells(rest, vs)
    ensures Spells(head + rest, [v] + vs)
  {
    var s, all := head + rest, [v] + vs;
    assert s[..|head|] == head && s[|head|..] == rest && all[1..] == vs;
  }

  lemma ByteEncodes(b: byte)
    ensures IsEncoding(if b < 0x80 then [b] else [0xc0 + b / 64, 0x80 + b % 64], b as nat)
  {
    ValueOf([b], 0);
    if b >= 0x80 {
      ValueOf([0xc0 + b / 64, 0x80 + b % 64], 0xc0);
    }
  }

  function Numbers(line: seq<byte>): seq<nat> {
    if line == [] then [] else [line[0] as nat] + Numbers(line[1..])
  }

  /** A captured line is stored as the characters whose numbers are the bytes typed. */
  lemma {:induction false} EncodedSpells(line: seq<byte>)
    ensures Spells(Encoded(line), Numbers(line))
    decreases |line|
  {
    if line != [] {
      EncodedSpells(line[1..]);
      ByteEncodes(line[0]);
      SpellsFirst(if line[0] < 0x80 then [line[0]] else [0xc0 + line[0] / 64, 0x80 + line[0] % 64],
                  Encoded(line[1..]), line[0] as nat, Numbers(line[1..]));
    }
  }

  /** Extraction keeps whole characters, and goes on behind a byte that starts none. */
  lemma {:induction false} StrayByteSkipped(a: seq<byte>, stray: byte, b: seq<byte>)
    requires IsText(a) && (0x80 <= stray < 0xc2 || 0xf5 <= stray)
    ensures Extract(a + ([stray] + b)) == a + Extract(b)
    ensures IsText(b) ==> Extract(a + ([stray] + b)) == a + b
    decreases |a|
  {
    var s := a + ([stray] + b);
    if a == [] {
      DropWithin([stray], b, 1);
      assert s == [stray] + b;
    } else {
      var n := Decode(a).len;
      DecodeLocal(a, [stray] + b);
      StrayByteSkipped(a[n..], stray, b);
      DropWithin(a, [stray] + b, n);
      SplitAt(a, n);
      Assoc(a[..n], a[n..], Extract(b));
    }
    if IsText(b) {
      TextIsKept(b);
    }
  }

  lemma TextIsKept(b: seq<byte>)
    requires IsText(b)
    ensures Extract(b) == b
  {
    VerdictIsRight(b);
    FromUtf8Extracts(b);
  }
}
