/**
 * Additive weights over byte ranges.
 *
 * The transfer invariants say who owns each byte (written, buffered, requested or not yet
 * requested) and how many bytes each owner holds.  Both are instances of one statement about an
 * additive weight: `At(p)` weighs a range 1 when it covers position `p`, `Bytes()` weighs it by
 * its length.
 */
module Accounting {
  import opened Limits
  import opened Octets
  import opened Sequences

  type Weight = (nat, nat) -> nat

  datatype Request = Request(off: nat, len: nat)

  /** Cutting the range at `off` of length `c` after `a` bytes keeps its weight. */
  ghost predicate Splits(w: Weight, off: nat, a: nat, c: nat) {
    a <= c ==> w(off, c) == w(off, a) + w(off + a, c - a)
  }

  ghost predicate Additive(w: Weight) {
    forall off: nat, a: nat, c: nat :: Splits(w, off, a, c)
  }

  ghost function At(p: nat): Weight {
    (off: nat, len: nat) => if off <= p < off + len then 1 else 0
  }

  ghost function Bytes(): Weight {
    (off: nat, len: nat) => len
  }

  lemma WeightsAdditive(p: nat)
    ensures Additive(At(p)) && Additive(Bytes())
  {
  }

  lemma Cut(w: Weight, off: nat, a: nat, c: nat)
    requires Additive(w) && a <= c
    ensures w(off, c) == w(off, a) + w(off + a, c - a)
    ensures w(off, 0) == 0
  {
    assert Splits(w, off, a, c) && Splits(w, off, 0, 0);
  }

  // ---- requests ----

  ghost function SumRequests(rs: seq<Request>, w: Weight): nat {
    if rs == [] then 0 else w(rs[0].off, rs[0].len) + SumRequests(rs[1..], w)
  }

  lemma {:induction false} SumRequestsConcat(a: seq<Request>, b: seq<Request>, w: Weight)
    ensures SumRequests(a + b, w) == SumRequests(a, w) + SumRequests(b, w)
  {
    if a == [] {
      assert a + b == b;
    } else {
      assert (a + b)[1..] == a[1..] + b;
      SumRequestsConcat(a[1..], b, w);
    }
  }

  function Without<T>(s: seq<T>, k: nat): (r: seq<T>)
    requires k < |s|
    ensures |r| == |s| - 1
    ensures forall i :: 0 <= i < |r| ==> r[i] == s[if i < k then i else i + 1]
  {
    s[..k] + s[k + 1..]
  }

  lemma SumRequestsWithout(rs: seq<Request>, k: nat, w: Weight)
    requires k < |rs|
    ensures SumRequests(rs, w) == w(rs[k].off, rs[k].len) + SumRequests(Without(rs, k), w)
  {
    var before, after := rs[..k], rs[k + 1..];
    Around(rs, k);
    SumRequestsConcat(before + [rs[k]], after, w);
    SumRequestsAppend(before, rs[k], w);
    SumRequestsConcat(before, after, w);
  }

  lemma SumRequestsAppend(rs: seq<Request>, r: Request, w: Weight)
    ensures SumRequests(rs + [r], w) == SumRequests(rs, w) + w(r.off, r.len)
  {
    SumRequestsConcat(rs, [r], w);
    assert [r][1..] == [];
  }

  /** Two ranges of which no position is owned twice do not overlap. */
  lemma OwnedOnce(rs: seq<Request>, a: nat, b: nat)
    requires a < b < |rs| && rs[a].len > 0 && rs[b].len > 0
    requires SumRequests(rs, At(Max(rs[a].off, rs[b].off))) <= 1
    ensures rs[a].off + rs[a].len <= rs[b].off || rs[b].off + rs[b].len <= rs[a].off
  {
    var p, rest := Max(rs[a].off, rs[b].off), Without(rs, b);
    SumRequestsWithout(rs, b, At(p));
    assert rest[a] == rs[a];
    SumRequestsWithout(rest, a, At(p));
  }

  // ---- buffered chunks ----

  ghost function SumChunks(m: map<nat, seq<byte>>, w: Weight): nat
    decreases |m|
  {
    if m == map[] then 0
    else
      var off :| off in m;
      w(off, |m[off]|) + SumChunks(m - {off}, w)
  }

  lemma {:induction false} SumChunksWithout(m: map<nat, seq<byte>>, off: nat, w: Weight)
    requires off in m
    ensures SumChunks(m, w) == w(off, |m[off]|) + SumChunks(m - {off}, w)
    decreases |m|
  {
    var first :| first in m && SumChunks(m, w) == w(first, |m[first]|) + SumChunks(m - {first}, w);
    if first != off {
      SumChunksWithout(m - {first}, off, w);
      SumChunksWithout(m - {off}, first, w);
      assert m - {first} - {off} == m - {off} - {first};
    }
  }

  lemma SumChunksInsert(m: map<nat, seq<byte>>, off: nat, data: seq<byte>, w: Weight)
    requires off !in m
    ensures SumChunks(m[off := data], w) == SumChunks(m, w) + w(off, |data|)
  {
    assert m[off := data] - {off} == m;
    SumChunksWithout(m[off := data], off, w);
  }
}
