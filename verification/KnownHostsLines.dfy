/** What the lines of a known_hosts file say, told from the words written on them. */
module KnownHostsLines {
  import opened Options
  import opened Octets
  import opened Sequences
  import opened Text
  import opened KnownHosts
  import opened KnownHostsAppend

  // ---- markers ----

  predicate Starts(word: string, c: char) {
    word != [] && word[0] == c
  }

  /** The word is written like this, in letters of either case. */
  predicate IsWrittenAs(word: string, lower: string, upper: string) {
    |word| == |lower| == |upper| && forall i :: 0 <= i < |word| ==> word[i] == lower[i] || word[i] == upper[i]
  }

  predicate IsRevoked(word: string) {
    IsWrittenAs(word, "@revoked", "@REVOKED")
  }

  predicate IsAuthority(word: string) {
    IsWrittenAs(word, "@cert-authority", "@CERT-AUTHORITY")
  }

  /** The two spellings differ in the case of letters only. */
  predicate SameLetters(lower: string, upper: string) {
    |lower| == |upper| && forall i :: 0 <= i < |lower| ==>
      if 'a' <= lower[i] <= 'z' then upper[i] as int == lower[i] as int - 32
      else upper[i] == lower[i] && !('A' <= lower[i] <= 'Z')
  }

  lemma CaseIgnored(word: string, lower: string, upper: string)
    requires SameLetters(lower, upper)
    ensures EqualIgnoringCase(word, lower) <==> IsWrittenAs(word, lower, upper)
  {
    if |word| == |lower| {
      forall i | 0 <= i < |word|
        ensures Lower(word[i]) == Lower(lower[i]) <==> word[i] == lower[i] || word[i] == upper[i]
      {
      }
    }
  }

  lemma MarkersMean(word: string)
    ensures EqualIgnoringCase(word, "@revoked") <==> IsRevoked(word)
    ensures EqualIgnoringCase(word, "@cert-authority") <==> IsAuthority(word)
    ensures !(IsRevoked(word) && IsAuthority(word))
    ensures IsRevoked(word) || IsAuthority(word) ==> word != [] && word[0] == '@'
  {
    CaseIgnored(word, "@revoked", "@REVOKED");
    CaseIgnored(word, "@cert-authority", "@CERT-AUTHORITY");
  }

  // ---- lists ----

  /** The parts with a separator between any two. */
  function Joined(parts: seq<string>, separator: char): string
    requires parts != []
  {
    if |parts| == 1 then parts[0] else parts[0] + [separator] + Joined(parts[1..], separator)
  }

  lemma {:induction false} SplitJoined(parts: seq<string>, c: char)
    requires parts != [] && forall i :: 0 <= i < |parts| ==> c !in parts[i]
    ensures Split(Joined(parts, c), c) == parts
  {
    if |parts| == 1 {
      SplitPlain(parts[0], c);
    } else {
      SplitJoined(parts[1..], c);
      SplitFirst(parts[0], c, Joined(parts[1..], c));
    }
  }

  lemma SplitFirst(a: string, c: char, b: string)
    requires c !in a
    ensures Split(a + [c] + b, c) == [a] + Split(b, c)
  {
    var s := a + [c] + b;
    UntilFound(a, c, b);
    assert s[..|a|] == a && s[|a| + 1..] == b;
  }

  lemma {:induction false} JoinedSplit(s: string, c: char)
    ensures Joined(Split(s, c), c) == s
    ensures forall i :: 0 <= i < |Split(s, c)| ==> c !in Split(s, c)[i]
    decreases |s|
  {
    var n := Until(s, c);
    if n < |s| {
      JoinedSplit(s[n + 1..], c);
      Around(s, n);
      assert Split(s, c)[1..] == Split(s[n + 1..], c);
    }
  }

  /** Host patterns that can be written in a list. */
  predicate Listable(hosts: seq<string>) {
    hosts != [] && forall i :: 0 <= i < |hosts| ==> PlainWord(hosts[i]) && ',' !in hosts[i]
  }

  lemma {:induction false} TrimPlain(hosts: seq<string>)
    requires forall i :: 0 <= i < |hosts| ==> PlainWord(hosts[i])
    ensures TrimAll(hosts) == hosts
  {
    if hosts != [] {
      TrimPlain(hosts[1..]);
    }
  }

  // ---- entries ----

  /** The words of an entry: a marker or none, the hosts, the type, the key, and anything after them. */
  datatype Written = Written(
    marker: Option<string>, hosts: seq<string>, keyType: string, key: string, more: seq<string>)
  {
    predicate Valid() {
      && Listable(hosts) && PlainWord(key)
      && (if marker.Some? then Starts(marker.value, '@') else !Starts(hosts[0], '#') && !Starts(hosts[0], '@'))
    }

    function Listing(): seq<string>
      requires Valid()
    {
      (if marker.Some? then [marker.value] else []) + [Joined(hosts, ','), keyType, key] + more
    }

    predicate Revokes() {
      marker.Some? && IsRevoked(marker.value)
    }

    predicate Certifies() {
      marker.Some? && IsAuthority(marker.value)
    }
  }

  lemma ListStarts(hosts: seq<string>)
    requires Listable(hosts)
    ensures Joined(hosts, ',') != [] && Joined(hosts, ',')[0] == hosts[0][0]
  {
  }

  /**
   * A line with these words is an entry for just these hosts and this key, and a revocation exactly
   * when it is marked as one; a line marked as a certificate authority's is no entry.
   */
  lemma LineEntry(line: string, w: Written)
    requires w.Valid() && Words(line) == w.Listing()
    ensures EntryOf(line) == if w.Certifies() then None else Some(Entry(w.hosts, w.key, w.Revokes()))
  {
    EntryByWords(line);
    ListStarts(w.hosts);
    SplitJoined(w.hosts, ',');
    TrimPlain(w.hosts);
    if w.marker.Some? {
      MarkersMean(w.marker.value);
    }
  }

  /** Blank lines, comments, certificate authorities and lines that are too short hold no entry. */
  lemma NoEntryExactly(line: string)
    ensures EntryOf(line).None? <==>
      var ws := Words(line);
      |ws| < 3 || Starts(ws[0], '#') || IsAuthority(ws[0]) || (Starts(ws[0], '@') && |ws| == 3)
  {
    EntryByWords(line);
    WordsSolid(line);
    if Words(line) != [] {
      MarkersMean(Words(line)[0]);
    }
  }

  lemma {:induction false} WordsSolid(s: string)
    ensures forall i :: 0 <= i < |Words(s)| ==> PlainWord(Words(s)[i])
    decreases |s|
  {
    if s != [] {
      if IsSpace(s[0]) {
        WordsSolid(s[1..]);
      } else {
        WordLenStops(s);
        WordsSolid(s[WordLen(s)..]);
      }
    }
  }

  // ---- hashed hosts ----

  /** `|1|salt|hash` */
  function Hashed(salt: string, hash: string): string {
    Joined(["", "1", salt, hash], '|')
  }

  lemma SplitHashed(salt: string, hash: string)
    requires '|' !in salt && '|' !in hash
    ensures Split(Hashed(salt, hash), '|') == ["", "1", salt, hash]
  {
    SplitJoined(["", "1", salt, hash], '|');
  }

  /** A hashed pattern matches the hosts whose hash under the salt is the one written. */
  lemma HashedMatches(codec: Codec, salt: string, hash: string, host: string)
    requires '|' !in salt && '|' !in hash
    ensures PatternMatches(codec, Hashed(salt, hash), host) <==>
      host == Hashed(salt, hash) ||
      (codec.decode(salt).Some? && codec.decode(hash) == Some(codec.hmac(codec.decode(salt).value, host)))
  {
    SplitHashed(salt, hash);
  }

  /** Any other pattern matches nothing but itself. */
  lemma OnlyHashed(codec: Codec, pattern: string, host: string)
    requires PatternMatches(codec, pattern, host) && pattern != host
    ensures exists salt, hash :: pattern == Hashed(salt, hash) && '|' !in salt && '|' !in hash
  {
    JoinedSplit(pattern, '|');
    var parts := Split(pattern, '|');
    assert parts == ["", "1", parts[2], parts[3]];
    assert pattern == Hashed(parts[2], parts[3]);
  }

  // ---- what a line says about a host and key ----

  /** None of the patterns is hashed. */
  predicate Unhashed(hosts: seq<string>) {
    forall i :: 0 <= i < |hosts| ==> !Starts(hosts[i], '|')
  }

  lemma UnhashedMatches(codec: Codec, e: Entry, host: string)
    requires Unhashed(e.hostPatterns)
    ensures MatchesHost(codec, e, host) <==> host in e.hostPatterns
  {
    forall i | 0 <= i < |e.hostPatterns|
      ensures PatternMatches(codec, e.hostPatterns[i], host) <==> e.hostPatterns[i] == host
    {
      if PatternMatches(codec, e.hostPatterns[i], host) && e.hostPatterns[i] != host {
        OnlyHashed(codec, e.hostPatterns[i], host);
      }
    }
  }

  /**
   * A line says something about the hosts it lists, by what its key decodes to; if it is marked as
   * a revocation, that the key, or another one, is revoked.
   */
  lemma LineKindExactly(q: Query, line: string, w: Written)
    requires w.Valid() && Words(line) == w.Listing() && Unhashed(w.hosts)
    ensures var same := q.codec.decode(w.key) == Some(q.key);
      KindOf(q, line) ==
      if q.host !in w.hosts || w.Certifies() then NoEntry
      else if w.Revokes() then (if same then RevokedKey else RevokedOther)
      else if same then SameKey else OtherKey
  {
    LineEntry(line, w);
    UnhashedMatches(q.codec, Entry(w.hosts, w.key, w.Revokes()), q.host);
  }

  /** A key is reported as revoked only for a line marked so. */
  lemma RevokedIsMarked(q: Query, line: string)
    requires KindOf(q, line).RevokedKey? || KindOf(q, line).RevokedOther?
    ensures Words(line) != [] && IsRevoked(Words(line)[0])
  {
    EntryByWords(line);
    MarkersMean(Words(line)[0]);
  }

  // ---- revoked keys ----

  /** The line revokes this key for the host, whatever its marker's case and whatever follows the key. */
  predicate RevokesFor(line: string, w: Written, q: Query) {
    && w.Valid() && Words(line) == w.Listing() && w.Revokes() && Unhashed(w.hosts)
    && q.host in w.hosts && q.codec.decode(w.key) == Some(q.key)
  }

  lemma NotAmong(ks: seq<LineKind>, n: nat)
    requires n <= |ks| && RevokedKey !in ks[..n]
    ensures forall i :: 0 <= i < n ==> ks[i] != RevokedKey
  {
    forall i | 0 <= i < n ensures ks[i] != RevokedKey {
      assert ks[..n][i] == ks[i];
    }
  }

  /**
   * A file with a line that revokes the key for the host: the verdict is Revoked, at that line or an
   * earlier one, and at that line if no earlier one is marked as a revocation.
   */
  lemma RevocationWins(q: Query, content: string, i: nat, w: Written, s: Status)
    requires i < |Lines(content)| && RevokesFor(Lines(content)[i], w, q)
    requires IsVerdict(Kinds(q, Lines(content)), s)
    ensures s.Revoked? && 1 <= s.line <= i + 1
    ensures (forall k :: 0 <= k < i ==> Words(Lines(content)[k]) == [] || !IsRevoked(Words(Lines(content)[k])[0]))
      ==> s == Revoked(i + 1)
  {
    var lines := Lines(content);
    var ks := Kinds(q, lines);
    KindsAt(q, lines, i);
    MarkersMean(w.marker.value);
    LineKindExactly(q, lines[i], w);
    assert ks[i] == RevokedKey;
    assert RevokedKey in ks;
    NotAmong(ks, s.line - 1);
    KindsAt(q, lines, s.line - 1);
    RevokedIsMarked(q, lines[s.line - 1]);
  }

  /** Without a line marked as a revocation no key is revoked. */
  lemma NoMarkNoRevocation(q: Query, content: string, s: Status)
    requires IsVerdict(Kinds(q, Lines(content)), s) && s.Revoked?
    ensures 1 <= s.line <= |Lines(content)|
    ensures var ws := Words(Lines(content)[s.line - 1]); ws != [] && IsRevoked(ws[0])
  {
    KindsAt(q, Lines(content), s.line - 1);
    RevokedIsMarked(q, Lines(content)[s.line - 1]);
  }

  /** A marker in front of a printed entry. */
  lemma MarkedFormat(marker: string, host: string, keyType: string, keyBase64: string)
    requires PlainWord(marker) && marker[0] == '@'
    requires PlainHost(host) && PlainWord(keyType) && PlainWord(keyBase64)
    ensures EntryOf(marker + " " + FormatEntry(host, keyType, keyBase64)) ==
      if IsAuthority(marker) then None else Some(Entry([host], keyBase64, IsRevoked(marker)))
  {
    var line := marker + " " + FormatEntry(host, keyType, keyBase64);
    Assoc(marker, " ", FormatEntry(host, keyType, keyBase64));
    JoinWords(marker, FormatEntry(host, keyType, keyBase64));
    WordsOfPrinted(host, keyType, keyBase64);
    LineEntry(line, Written(Some(marker), [host], keyType, keyBase64, []));
  }

  // ---- host patterns ----

  /** The number that digits stand for. */
  function Number(digits: string): nat
    requires forall i :: 0 <= i < |digits| ==> '0' <= digits[i] <= '9'
  {
    if digits == [] then 0
    else Number(digits[..|digits| - 1]) * 10 + (digits[|digits| - 1] as int - '0' as int)
  }

  lemma {:induction false} DecimalReads(n: nat)
    ensures (forall i :: 0 <= i < |Decimal(n)| ==> '0' <= Decimal(n)[i] <= '9') && Number(Decimal(n)) == n
    ensures n > 0 ==> Decimal(n)[0] != '0'
  {
    DecimalDigits(n);
    if n >= 10 {
      DecimalReads(n / 10);
      assert Decimal(n)[..|Decimal(n)| - 1] == Decimal(n / 10);
    } else {
      assert Decimal(n)[..0] == [];
    }
  }

  /** Port 22 is left out; any other is written after the name in brackets, without leading zeros. */
  lemma HostPatternForms(hostname: string, port: nat) returns (digits: string)
    ensures HostPattern(hostname, port) == if port == 22 then hostname else "[" + hostname + "]:" + digits
    ensures (forall i :: 0 <= i < |digits| ==> '0' <= digits[i] <= '9') && Number(digits) == port
    ensures digits != [] && (port > 0 ==> digits[0] != '0')
  {
    digits := Decimal(port);
    DecimalReads(port);
    DecimalDigits(port);
    assert "[" + hostname + "]" + ":" + digits == "[" + hostname + "]:" + digits;
  }
}
