/**
 * When a host key that has just been added is trusted: the exact condition on the file before.
 */
module KnownHostsAppend {
  import opened Options
  import opened Octets
  import opened Sequences
  import opened Text
  import opened KnownHosts

  // ---- what a line says, by its words ----

  function EntryOfList(words: seq<string>): Option<Entry> {
    if words == [] || (words[0] != [] && words[0][0] == '#') then None else ParseWords(words)
  }

  lemma EntryByWords(line: string)
    ensures EntryOf(line) == EntryOfList(Words(line))
  {
    TrimStarts(line);
    WordsTrim(line);
  }

  /** The words of a line without a newline, once an entry has been appended to it. */
  function AppendedWords(last: string, host: string, keyType: string, keyBase64: string): seq<string> {
    var ws := Words(last);
    if EndsInSpace(last) || ws == [] then ws + [host, keyType, keyBase64]
    else ws[..|ws| - 1] + [ws[|ws| - 1] + host, keyType, keyBase64]
  }

  lemma EntryTail(keyType: string, keyBase64: string)
    requires PlainWord(keyType) && PlainWord(keyBase64)
    ensures Words(" " + Join(keyType, keyBase64)) == [keyType, keyBase64] == Words(Join(keyType, keyBase64))
  {
    OneWord(keyBase64);
    JoinWords(keyType, keyBase64);
    DropWithin(" ", Join(keyType, keyBase64), 1);
  }

  lemma WordsOfAppended(last: string, host: string, keyType: string, keyBase64: string)
    requires PlainWord(host) && PlainWord(keyType) && PlainWord(keyBase64)
    ensures Words(last + FormatEntry(host, keyType, keyBase64)) == AppendedWords(last, host, keyType, keyBase64)
  {
    if EndsInSpace(last) {
      assert Words(FormatEntry(host, keyType, keyBase64)) == [host, keyType, keyBase64] by {
        EntryTail(keyType, keyBase64);
        JoinWords(host, Join(keyType, keyBase64));
      }
      WordsAppend(last, FormatEntry(host, keyType, keyBase64));
    } else {
      var rest := " " + Join(keyType, keyBase64);
      assert Words(rest) == [keyType, keyBase64] by {
        EntryTail(keyType, keyBase64);
      }
      assert FormatEntry(host, keyType, keyBase64) == host + rest;
      WordsOfGlued(last, host, rest);
    }
  }

  lemma WordsOfGlued(last: string, more: string, rest: string)
    requires !EndsInSpace(last) && NoSpace(more) && rest != [] && IsSpace(rest[0])
    ensures var ws := Words(last);
      ws != [] && Words(last + (more + rest)) == ws[..|ws| - 1] + ([ws[|ws| - 1] + more] + Words(rest))
  {
    var front, word := LastWord(last);
    WordsOfLastWord(front, word);
    WordsGlued(front, word, more, rest);
    ConcatFront(Words(front), [word]);
    Unit(Words(front));
  }

  // ---- trust ----

  /** The entry names the host and key as they are written, revoked or not. */
  predicate Names(e: Option<Entry>, host: string, keyBase64: string) {
    e.Some? && host in e.value.hostPatterns && e.value.keyBase64 == keyBase64
  }

  /** However keys are decoded and hosts are hashed, the host is known by the key, or the key is revoked. */
  ghost predicate Trusted(content: string, host: string, keyBase64: string) {
    forall codec: Codec, key :: codec.decode(keyBase64) == Some(key) ==>
      Settled(Kinds(Query(codec, host, key), Lines(content)))
  }

  /** The verdict is Known or Revoked. */
  ghost predicate Settled(ks: seq<LineKind>) {
    SameKey in ks || RevokedKey in ks
  }

  lemma SettledVerdict(ks: seq<LineKind>, s: Status)
    requires IsVerdict(ks, s)
    ensures Settled(ks) <==> s.Known? || s.Revoked?
  {
    forall i | 0 <= i < |ks| && s.Unknown? ensures ks[i] == NoEntry {
    }
  }

  /** A codec that decodes the one key only, and under which no hashed name matches. */
  function OneKey(keyBase64: string): Codec {
    Codec((text: string) => if text == keyBase64 then Some([]) else None, (salt: seq<byte>, host: string) => [0])
  }

  lemma KindUnderOneKey(host: string, keyBase64: string, line: string)
    ensures var k := KindOf(Query(OneKey(keyBase64), host, []), line);
      k == SameKey || k == RevokedKey <==> Names(EntryOf(line), host, keyBase64)
  {
    var codec := OneKey(keyBase64);
    var e := EntryOf(line);
    if e.Some? {
      forall i | 0 <= i < |e.value.hostPatterns|
        ensures PatternMatches(codec, e.value.hostPatterns[i], host) <==> e.value.hostPatterns[i] == host
      {
      }
      assert MatchesHost(codec, e.value, host) <==> host in e.value.hostPatterns;
    }
  }

  lemma KindOfNamed(q: Query, line: string, keyBase64: string)
    requires Names(EntryOf(line), q.host, keyBase64) && q.codec.decode(keyBase64) == Some(q.key)
    ensures KindOf(q, line) == SameKey || KindOf(q, line) == RevokedKey
  {
    var patterns := EntryOf(line).value.hostPatterns;
    var i :| 0 <= i < |patterns| && patterns[i] == q.host;
    assert PatternMatches(q.codec, patterns[i], q.host);
  }

  predicate NamedIn(lines: seq<string>, host: string, keyBase64: string) {
    exists i :: 0 <= i < |lines| && Names(EntryOf(lines[i]), host, keyBase64)
  }

  /** A host and key are trusted exactly when some line names both as they are written. */
  lemma TrustedExactly(content: string, host: string, keyBase64: string)
    ensures Trusted(content, host, keyBase64) <==> NamedIn(Lines(content), host, keyBase64)
  {
    var lines := Lines(content);
    if Trusted(content, host, keyBase64) {
      var q := Query(OneKey(keyBase64), host, []);
      var ks := Kinds(q, lines);
      assert q.codec.decode(keyBase64) == Some(q.key);
      assert Settled(ks);
      var i :| 0 <= i < |ks| && (ks[i] == SameKey || ks[i] == RevokedKey);
      KindsAt(q, lines, i);
      KindUnderOneKey(host, keyBase64, lines[i]);
    }
    if NamedIn(lines, host, keyBase64) {
      var i :| 0 <= i < |lines| && Names(EntryOf(lines[i]), host, keyBase64);
      forall codec: Codec, key | codec.decode(keyBase64) == Some(key)
        ensures Settled(Kinds(Query(codec, host, key), lines))
      {
        KindOfNamed(Query(codec, host, key), lines[i], keyBase64);
        KindsAt(Query(codec, host, key), lines, i);
      }
    }
  }

  /**
   * The entry just added is trusted exactly when the file was empty or ended with a newline, or a
   * line above the last named the host and key already, or the words of the last line, with the
   * entry's words appended and no space in between but its own, do.
   */
  lemma AddTrustedExactly(content: string, host: string, keyType: string, keyBase64: string)
    requires PlainHost(host) && PlainWord(keyType) && PlainWord(keyBase64)
    ensures Trusted(Added(content, FormatEntry(host, keyType, keyBase64)), host, keyBase64) <==>
      Terminated(content) ||
      var lines := Lines(content);
      lines != [] &&
      (NamedIn(lines[..|lines| - 1], host, keyBase64) ||
       Names(EntryOfList(AppendedWords(lines[|lines| - 1], host, keyType, keyBase64)), host, keyBase64))
  {
    TrustedExactly(Added(content, FormatEntry(host, keyType, keyBase64)), host, keyBase64);
    if Terminated(content) {
      OwnLineNames(content, host, keyType, keyBase64);
    } else {
      GluedLineNames(content, host, keyType, keyBase64);
    }
  }

  lemma OwnLineNames(content: string, host: string, keyType: string, keyBase64: string)
    requires Terminated(content) && PlainHost(host) && PlainWord(keyType) && PlainWord(keyBase64)
    ensures NamedIn(Lines(Added(content, FormatEntry(host, keyType, keyBase64))), host, keyBase64)
  {
    var entry := FormatEntry(host, keyType, keyBase64);
    FormatIsOneLine(host, keyType, keyBase64);
    AppendsOwnLineExactly(content, entry);
    ParseFormat(host, keyType, keyBase64);
    NamedSnoc(Lines(content), entry, host, keyBase64);
  }

  lemma GluedLineNames(content: string, host: string, keyType: string, keyBase64: string)
    requires !Terminated(content) && PlainHost(host) && PlainWord(keyType) && PlainWord(keyBase64)
    ensures var lines := Lines(content);
      lines != [] &&
      (NamedIn(Lines(Added(content, FormatEntry(host, keyType, keyBase64))), host, keyBase64) <==>
       NamedIn(lines[..|lines| - 1], host, keyBase64) ||
       Names(EntryOfList(AppendedWords(lines[|lines| - 1], host, keyType, keyBase64)), host, keyBase64))
  {
    var entry, lines := FormatEntry(host, keyType, keyBase64), Lines(content);
    FormatIsOneLine(host, keyType, keyBase64);
    AppendGlues(content, entry);
    var last := lines[|lines| - 1];
    NamedSnoc(lines[..|lines| - 1], last + entry, host, keyBase64);
    GluedEntryByWords(last, host, keyType, keyBase64);
  }

  lemma GluedEntryByWords(last: string, host: string, keyType: string, keyBase64: string)
    requires PlainWord(host) && PlainWord(keyType) && PlainWord(keyBase64)
    ensures EntryOf(last + FormatEntry(host, keyType, keyBase64))
      == EntryOfList(AppendedWords(last, host, keyType, keyBase64))
  {
    EntryByWords(last + FormatEntry(host, keyType, keyBase64));
    WordsOfAppended(last, host, keyType, keyBase64);
  }

  lemma NamedSnoc(lines: seq<string>, line: string, host: string, keyBase64: string)
    ensures NamedIn(lines + [line], host, keyBase64) <==>
      NamedIn(lines, host, keyBase64) || Names(EntryOf(line), host, keyBase64)
  {
    var more := lines + [line];
    if NamedIn(lines, host, keyBase64) {
      var i :| 0 <= i < |lines| && Names(EntryOf(lines[i]), host, keyBase64);
      assert more[i] == lines[i];
    }
    if Names(EntryOf(line), host, keyBase64) {
      assert more[|lines|] == line;
    }
  }

  /**
   * When the file ends in a printed entry without a newline, the new entry runs into it: the host
   * just added stays unknown, and the last entry's key is read as another one.
   */
  lemma UnterminatedLosesEntry(q: Query, host: string, keyType: string, keyBase64: string,
      lastHost: string, lastType: string, lastKey: string)
    requires PlainHost(host) && PlainWord(keyType) && PlainWord(keyBase64)
    requires PlainHost(lastHost) && PlainWord(lastType) && PlainWord(lastKey)
    requires q.host == host && host != lastHost
    ensures var lines := Lines(Added(FormatEntry(lastHost, lastType, lastKey), FormatEntry(host, keyType, keyBase64)));
      && |lines| == 1 && EntryOf(lines[0]) == Some(Entry([lastHost], lastKey + host, false))
      && IsVerdict(Kinds(q, lines), Unknown)
  {
    var last, entry := FormatEntry(lastHost, lastType, lastKey), FormatEntry(host, keyType, keyBase64);
    FormatIsOneLine(lastHost, lastType, lastKey);
    FormatIsOneLine(host, keyType, keyBase64);
    OnlyLineGlues(last, entry);
    GluedToPrinted(host, keyType, keyBase64, lastHost, lastType, lastKey);
    PlainEntryKind(q, last + entry, lastHost, lastKey + host);
    KindsAppend(q, [], last + entry);
    Unit([last + entry]);
    Unit([KindOf(q, last + entry)]);
  }

  lemma GluedToPrinted(host: string, keyType: string, keyBase64: string,
      lastHost: string, lastType: string, lastKey: string)
    requires PlainHost(host) && PlainWord(keyType) && PlainWord(keyBase64)
    requires PlainHost(lastHost) && PlainWord(lastType) && PlainWord(lastKey)
    ensures EntryOf(FormatEntry(lastHost, lastType, lastKey) + FormatEntry(host, keyType, keyBase64))
      == Some(Entry([lastHost], lastKey + host, false))
  {
    hide EntryOf, EntryOfList, FormatEntry, Words;
    var last := FormatEntry(lastHost, lastType, lastKey);
    var words := [lastHost, lastType, lastKey + host, keyType, keyBase64];
    GluedEntryByWords(last, host, keyType, keyBase64);
    assert AppendedWords(last, host, keyType, keyBase64) == words by {
      WordsOfPrinted(lastHost, lastType, lastKey);
    }
    EntryOfPlainWords(words);
  }

  lemma EntryOfPlainWords(words: seq<string>)
    requires |words| >= 3 && PlainHost(words[0]) && words[2] != []
    ensures EntryOfList(words) == Some(Entry([words[0]], words[2], false))
  {
    OnePattern(words[0]);
  }

  lemma WordsOfPrinted(host: string, keyType: string, keyBase64: string)
    requires PlainHost(host) && PlainWord(keyType) && PlainWord(keyBase64)
    ensures Words(FormatEntry(host, keyType, keyBase64)) == [host, keyType, keyBase64]
    ensures !EndsInSpace(FormatEntry(host, keyType, keyBase64))
  {
    EntryTail(keyType, keyBase64);
    JoinWords(host, Join(keyType, keyBase64));
    var line := FormatEntry(host, keyType, keyBase64);
    assert line[|line| - 1] == keyBase64[|keyBase64| - 1];
  }
}
