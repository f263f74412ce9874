/** Checking a host key against known_hosts, and appending a new entry. */
module KnownHosts {
  import opened Options
  import opened Octets
  import opened Sequences
  import opened Text

  /** Base64 decoding and the keyed hash of hashed host names. */
  datatype Codec = Codec(decode: string -> Option<seq<byte>>, hmac: (seq<byte>, string) -> seq<byte>)

  datatype Entry = Entry(hostPatterns: seq<string>, keyBase64: string, isRevoked: bool)

  // ---- parsing ----

  function Lower(c: char): char {
    if 'A' <= c <= 'Z' then (c as int + 32) as char else c
  }

  predicate EqualIgnoringCase(a: string, b: string) {
    |a| == |b| && forall i :: 0 <= i < |a| ==> Lower(a[i]) == Lower(b[i])
  }

  function TrimAll(parts: seq<string>): seq<string> {
    if parts == [] then [] else [Trim(parts[0])] + TrimAll(parts[1..])
  }

  /** `[@marker] host_patterns key_type base64_key [comment]` */
  function ParseLine(line: string): Option<Entry> {
    ParseWords(Words(line))
  }

  function ParseWords(parts: seq<string>): Option<Entry> {
    if |parts| < 3 then None
    else
      var marked := parts[0] != [] && parts[0][0] == '@';
      if marked && EqualIgnoringCase(parts[0], "@cert-authority") then None
      else
        var revoked, base := marked && EqualIgnoringCase(parts[0], "@revoked"), if marked then 1 else 0;
        if |parts| < base + 3 || parts[base + 2] == [] then None
        else Some(Entry(TrimAll(Split(parts[base], ',')), parts[base + 2], revoked))
  }

  /** The entry of a line of the file; blank lines and comments hold none. */
  function EntryOf(line: string): Option<Entry> {
    var trimmed := Trim(line);
    if trimmed == [] || trimmed[0] == '#' then None else ParseLine(trimmed)
  }

  /** `|1|salt|hash`: does the hash of `host` under the salt equal the stored one? */
  predicate HashMatches(codec: Codec, pattern: string, host: string) {
    var parts := Split(pattern, '|');
    && |parts| == 4 && parts[0] == [] && parts[1] == "1"
    && codec.decode(parts[2]).Some? && codec.decode(parts[3]).Some?
    && codec.hmac(codec.decode(parts[2]).value, host) == codec.decode(parts[3]).value
  }

  predicate PatternMatches(codec: Codec, pattern: string, host: string) {
    pattern == host || HashMatches(codec, pattern, host)
  }

  predicate MatchesHost(codec: Codec, e: Entry, host: string) {
    exists i :: 0 <= i < |e.hostPatterns| && PatternMatches(codec, e.hostPatterns[i], host)
  }

  predicate KeyMatches(codec: Codec, e: Entry, key: seq<byte>) {
    codec.decode(e.keyBase64) == Some(key)
  }

  // ---- the verdict ----

  datatype Status = Known | Unknown | Changed(line: nat) | Revoked(line: nat)

  /** What is asked: the host pattern and the key the server presented. */
  datatype Query = Query(codec: Codec, host: string, key: seq<byte>)

  /** What a line says about the host and key asked for. */
  datatype LineKind = NoEntry | SameKey | RevokedKey | OtherKey | RevokedOther

  function KindOf(q: Query, line: string): LineKind {
    match EntryOf(line)
    case None => NoEntry
    case Some(e) =>
      if !MatchesHost(q.codec, e, q.host) then NoEntry
      else if KeyMatches(q.codec, e, q.key) then (if e.isRevoked then RevokedKey else SameKey)
      else if e.isRevoked then RevokedOther else OtherKey
  }

  function Kinds(q: Query, lines: seq<string>): (r: seq<LineKind>)
    ensures |r| == |lines|
  {
    if lines == [] then [] else Kinds(q, lines[..|lines| - 1]) + [KindOf(q, lines[|lines| - 1])]
  }

  lemma {:induction false} KindsAt(q: Query, lines: seq<string>, i: nat)
    requires i < |lines|
    ensures Kinds(q, lines)[i] == KindOf(q, lines[i])
    decreases |lines|
  {
    if i < |lines| - 1 {
      KindsAt(q, lines[..|lines| - 1], i);
    }
  }

  /**
   * The verdict, by what the lines hold: a revoked entry of the key wins (the first is reported),
   * then any entry of the key, then any entry of the host (the last other key is reported, 0 when
   * there are only revoked ones).
   */
  ghost predicate IsVerdict(ks: seq<LineKind>, s: Status) {
    match s
    case Revoked(n) => 1 <= n <= |ks| && ks[n - 1] == RevokedKey && RevokedKey !in ks[..n - 1]
    case Known => RevokedKey !in ks && SameKey in ks
    case Changed(n) =>
      && RevokedKey !in ks && SameKey !in ks && (OtherKey in ks || RevokedOther in ks)
      && n <= |ks| && (n > 0 ==> ks[n - 1] == OtherKey) && OtherKey !in ks[n..]
    case Unknown => forall i :: 0 <= i < |ks| ==> ks[i] == NoEntry
  }

  lemma VerdictUnique(ks: seq<LineKind>, s: Status, t: Status)
    requires IsVerdict(ks, s) && IsVerdict(ks, t)
    ensures s == t
  {
  }

  /** What the scan remembers of the lines seen so far, none of which revokes the key. */
  datatype Tally = Tally(hostFound: bool, keyMatched: bool, lastChangedLine: nat)

  ghost predicate IsTally(ks: seq<LineKind>, t: Tally) {
    && RevokedKey !in ks
    && (t.keyMatched <==> SameKey in ks)
    && (t.hostFound <==> SameKey in ks || OtherKey in ks || RevokedOther in ks)
    && t.lastChangedLine <= |ks|
    && (t.lastChangedLine > 0 ==> ks[t.lastChangedLine - 1] == OtherKey)
    && OtherKey !in ks[t.lastChangedLine..]
  }

  function Noted(t: Tally, k: LineKind, line: nat): Tally {
    Tally(t.hostFound || k != NoEntry, t.keyMatched || k == SameKey, if k == OtherKey then line else t.lastChangedLine)
  }

  lemma TallyNext(ks: seq<LineKind>, t: Tally, k: LineKind)
    requires IsTally(ks, t) && k != RevokedKey
    ensures IsTally(ks + [k], Noted(t, k, |ks| + 1))
  {
    var more := ks + [k];
    assert forall x :: x in more <==> x in ks || x == k;
    assert more[t.lastChangedLine..] == ks[t.lastChangedLine..] + [k];
    assert more[|ks| + 1..] == [];
  }

  lemma TallyStep(ks: seq<LineKind>, i: nat, t: Tally)
    requires i < |ks| && ks[i] != RevokedKey && IsTally(ks[..i], t)
    ensures IsTally(ks[..i + 1], Noted(t, ks[i], i + 1))
  {
    TakeSnoc(ks, i);
    TallyNext(ks[..i], t, ks[i]);
  }

  lemma TallyVerdict(ks: seq<LineKind>, t: Tally)
    requires IsTally(ks, t)
    ensures IsVerdict(ks, if t.keyMatched then Known else if t.hostFound then Changed(t.lastChangedLine) else Unknown)
  {
    forall i | 0 <= i < |ks| && !t.hostFound ensures ks[i] == NoEntry {
      assert ks[i] in ks;
    }
  }

  lemma RevokedVerdict(ks: seq<LineKind>, i: nat, t: Tally)
    requires i < |ks| && ks[i] == RevokedKey && IsTally(ks[..i], t)
    ensures IsVerdict(ks, Revoked(i + 1))
  {
  }

  /** One line, trimmed, parsed and compared. */
  method Inspect(q: Query, text: string) returns (kind: LineKind)
    ensures kind == KindOf(q, text)
  {
    kind := NoEntry;
    var line := Trim(text);
    if line != [] && line[0] != '#' {
      var entry := ParseLine(line);
      if entry.Some? && MatchesHost(q.codec, entry.value, q.host) {
        if KeyMatches(q.codec, entry.value, q.key) {
          kind := if entry.value.isRevoked then RevokedKey else SameKey;
        } else {
          kind := if entry.value.isRevoked then RevokedOther else OtherKey;
        }
      }
    }
  }

  /** The scan over all lines; only a revoked entry of the key ends it early. */
  method CheckHostKey(q: Query, content: string) returns (status: Status)
    ensures IsVerdict(Kinds(q, Lines(content)), status)
  {
    var lines := Lines(content);
    ghost var ks := Kinds(q, lines);
    var hostFound, keyMatched, lastChangedLine := false, false, 0;
    var i := 0;
    while i < |lines|
      invariant 0 <= i <= |lines|
      invariant IsTally(ks[..i], Tally(hostFound, keyMatched, lastChangedLine))
    {
      var kind := Inspect(q, lines[i]);
      KindsAt(q, lines, i);
      if kind == RevokedKey {
        RevokedVerdict(ks, i, Tally(hostFound, keyMatched, lastChangedLine));
        return Revoked(i + 1);
      }
      ghost var next := Noted(Tally(hostFound, keyMatched, lastChangedLine), kind, i + 1);
      TallyStep(ks, i, Tally(hostFound, keyMatched, lastChangedLine));
      if kind != NoEntry {
        hostFound := true;
        if kind == SameKey {
          keyMatched := true;
        } else if kind == OtherKey {
          lastChangedLine := i + 1;
        }
      }
      assert Tally(hostFound, keyMatched, lastChangedLine) == next;
      i := i + 1;
    }
    Whole(ks);
    TallyVerdict(ks, Tally(hostFound, keyMatched, lastChangedLine));
    status := if keyMatched then Known else if hostFound then Changed(lastChangedLine) else Unknown;
  }

  // ---- appending an entry ----

  function FormatEntry(host: string, keyType: string, keyBase64: string): string {
    Join(host, Join(keyType, keyBase64))
  }

  /** The file after an entry has been added. */
  function Added(content: string, entry: string): string {
    content + (entry + "\n")
  }

  /** Without a final newline an appended entry runs into the last line. */
  lemma {:induction false} AppendGlues(content: string, entry: string)
    requires !Terminated(content) && '\n' !in entry
    ensures var lines := Lines(content);
      lines != [] && Lines(Added(content, entry)) == lines[..|lines| - 1] + [lines[|lines| - 1] + entry]
    decreases |content|
  {
    var n := Until(content, '\n');
    if n == |content| {
      OnlyLineGlues(content, entry);
    } else {
      Around(content, n);
      assert content[n + 1..][|content| - n - 2] == content[|content| - 1];
      AppendGlues(content[n + 1..], entry);
      LaterLineGlues(content[..n], content[n + 1..], entry);
    }
  }

  lemma OnlyLineGlues(line: string, entry: string)
    requires '\n' !in line && line != [] && '\n' !in entry
    ensures Lines(line) == [line] && Lines(Added(line, entry)) == [line + entry]
  {
    UntilMissing(line, '\n');
    LineFirst(line + entry, []);
    Assoc(line, entry, "\n");
    Unit(Added(line, entry));
  }

  lemma LaterLineGlues(line: string, rest: string, entry: string)
    requires '\n' !in line && Lines(rest) != []
    requires Lines(Added(rest, entry)) == Lines(rest)[..|Lines(rest)| - 1] + [Lines(rest)[|Lines(rest)| - 1] + entry]
    ensures var content := line + ['\n'] + rest;
      var lines := Lines(content);
      lines != [] && Lines(Added(content, entry)) == lines[..|lines| - 1] + [lines[|lines| - 1] + entry]
  {
    LineFirst(line, rest);
    Assoc(line + ['\n'], rest, entry + "\n");
    LineFirst(line, Added(rest, entry));
    GluedLater(line, Lines(rest), entry);
  }

  lemma GluedLater(line: string, lines: seq<string>, entry: string)
    requires lines != []
    ensures var more := [line] + lines;
      [line] + (lines[..|lines| - 1] + [lines[|lines| - 1] + entry]) == more[..|more| - 1] + [more[|more| - 1] + entry]
  {
  }

  /** An appended entry gets a line of its own exactly when the file is empty or ends with a newline. */
  lemma AppendsOwnLineExactly(content: string, entry: string)
    requires '\n' !in entry
    ensures Lines(Added(content, entry)) == Lines(content) + [entry] <==> Terminated(content)
  {
    if Terminated(content) {
      LinesAppend(content, entry + "\n");
      LineFirst(entry, []);
      Unit(entry + "\n");
      Unit([entry]);
    } else {
      AppendGlues(content, entry);
    }
  }

  predicate PlainWord(s: string) {
    s != [] && NoSpace(s)
  }

  /** A host pattern that can be written down as it is. */
  predicate PlainHost(host: string) {
    PlainWord(host) && ',' !in host && host[0] != '#' && host[0] != '@' && host[0] != '|'
  }

  lemma SplitPlain(s: string, c: char)
    requires c !in s
    ensures Split(s, c) == [s]
  {
    UntilMissing(s, c);
  }

  lemma OnePattern(host: string)
    requires PlainHost(host)
    ensures TrimAll(Split(host, ',')) == [host]
  {
    SplitPlain(host, ',');
    assert TrimAll([host][1..]) == [];
  }

  lemma FormatIsOneLine(host: string, keyType: string, keyBase64: string)
    requires PlainHost(host) && PlainWord(keyType) && PlainWord(keyBase64)
    ensures var line := FormatEntry(host, keyType, keyBase64);
      '\n' !in line && Lines(line + "\n") == [line] && Trim(line) == line
  {
    var line := FormatEntry(host, keyType, keyBase64);
    JoinNoNewline(keyType, keyBase64);
    JoinNoNewline(host, Join(keyType, keyBase64));
    JoinTrim(host, Join(keyType, keyBase64));
    LineFirst(line, []);
    Unit(line + "\n");
    Unit([line]);
  }

  /** A line of plain words: the first names the host, the third is the key. */
  lemma EntryOfWords(line: string, words: seq<string>)
    requires |words| >= 3 && PlainHost(words[0]) && words[2] != []
    requires Words(line) == words && Trim(line) == line && line != [] && line[0] == words[0][0]
    ensures EntryOf(line) == Some(Entry([words[0]], words[2], false))
  {
    OnePattern(words[0]);
  }

  /** Printing an entry and parsing the line gives back the host and the key. */
  lemma ParseFormat(host: string, keyType: string, keyBase64: string)
    requires PlainHost(host) && PlainWord(keyType) && PlainWord(keyBase64)
    ensures EntryOf(FormatEntry(host, keyType, keyBase64)) == Some(Entry([host], keyBase64, false))
  {
    var line := FormatEntry(host, keyType, keyBase64);
    FormatIsOneLine(host, keyType, keyBase64);
    JoinWords(host, Join(keyType, keyBase64));
    JoinWords(keyType, keyBase64);
    OneWord(keyBase64);
    EntryOfWords(line, [host, keyType, keyBase64]);
  }

  /** A plain pattern is no hashed one, so it matches nothing but itself. */
  lemma PlainMatchesItself(codec: Codec, pattern: string, host: string)
    requires PlainHost(pattern)
    ensures PatternMatches(codec, pattern, host) <==> pattern == host
  {
    assert Until(pattern, '|') > 0;
  }

  lemma PlainEntryKind(q: Query, line: string, host: string, keyBase64: string)
    requires PlainHost(host) && EntryOf(line) == Some(Entry([host], keyBase64, false))
    ensures KindOf(q, line) ==
      if q.host != host then NoEntry
      else if q.codec.decode(keyBase64) == Some(q.key) then SameKey else OtherKey
  {
    PlainMatchesItself(q.codec, host, q.host);
    var e := Entry([host], keyBase64, false);
    assert e.hostPatterns[0] == host;
    assert MatchesHost(q.codec, e, q.host) <==> PatternMatches(q.codec, e.hostPatterns[0], q.host);
  }

  lemma KindsAppend(q: Query, lines: seq<string>, line: string)
    ensures Kinds(q, lines + [line]) == Kinds(q, lines) + [KindOf(q, line)]
  {
    assert (lines + [line])[..|lines|] == lines;
  }

  /**
   * Adding a printed entry to a file that ends with a newline makes the host and key known, unless
   * the key is revoked for it, and changes no verdict for any other host.
   */
  lemma AddMakesKnown(q: Query, content: string, host: string, keyType: string, keyBase64: string, s: Status)
    requires Terminated(content) && PlainHost(host) && PlainWord(keyType) && PlainWord(keyBase64)
    requires IsVerdict(Kinds(q, Lines(content)), s)
    ensures var ks := Kinds(q, Lines(Added(content, FormatEntry(host, keyType, keyBase64))));
      && (q.host == host && q.codec.decode(keyBase64) == Some(q.key) ==> IsVerdict(ks, if s.Revoked? then s else Known))
      && (q.host != host ==> IsVerdict(ks, s))
  {
    var entry := FormatEntry(host, keyType, keyBase64);
    FormatIsOneLine(host, keyType, keyBase64);
    LinesAppend(content, entry + "\n");
    KindsAppend(q, Lines(content), entry);
    ParseFormat(host, keyType, keyBase64);
    PlainEntryKind(q, entry, host, keyBase64);
    VerdictWithLine(Kinds(q, Lines(content)), KindOf(q, entry), s);
  }

  lemma VerdictWithLine(ks: seq<LineKind>, k: LineKind, s: Status)
    requires IsVerdict(ks, s)
    ensures k == SameKey ==> IsVerdict(ks + [k], if s.Revoked? then s else Known)
    ensures k == NoEntry ==> IsVerdict(ks + [k], s)
  {
    var more := ks + [k];
    assert forall x :: x in more <==> x in ks || x == k;
    if s.Revoked? {
      assert more[..s.line - 1] == ks[..s.line - 1];
    }
    if s.Changed? {
      assert more[s.line..] == ks[s.line..] + [k];
    }
  }

  // ---- host patterns ----

  function Digit(d: nat): char
    requires d < 10
  {
    ('0' as int + d) as char
  }

  function Decimal(n: nat): string {
    if n < 10 then [Digit(n)] else Decimal(n / 10) + [Digit(n % 10)]
  }

  /** A host is listed by name for the default port and as `[name]:port` for any other. */
  function HostPattern(hostname: string, port: nat): string {
    if port == 22 then hostname else "[" + hostname + "]" + ":" + Decimal(port)
  }

  lemma {:induction false} DecimalDigits(n: nat)
    ensures forall i :: 0 <= i < |Decimal(n)| ==> '0' <= Decimal(n)[i] <= '9'
    ensures |Decimal(n)| > 0
  {
    if n >= 10 {
      DecimalDigits(n / 10);
    }
  }

  lemma {:induction false} DecimalInjective(m: nat, n: nat)
    requires Decimal(m) == Decimal(n)
    ensures m == n
    decreases m
  {
    DecimalDigits(m / 10);
    DecimalDigits(n / 10);
    var a, b := Decimal(m), Decimal(n);
    assert a[|a| - 1] == Digit(m % 10) && b[|b| - 1] == Digit(n % 10);
    assert m % 10 == n % 10;
    if m >= 10 && n >= 10 {
      assert a[..|a| - 1] == Decimal(m / 10) && b[..|b| - 1] == Decimal(n / 10);
      DecimalInjective(m / 10, n / 10);
    }
  }

  lemma LastColon(a: string, c: string, b: string, d: string)
    requires a + ":" + c == b + ":" + d && ':' !in c && ':' !in d
    ensures a == b && c == d
  {
    var s, t := a + ":" + c, b + ":" + d;
    assert s[|a|] == ':' && t[|b|] == ':';
    assert s[..|a|] == a && t[..|b|] == b && s[|a| + 1..] == c && t[|b| + 1..] == d;
  }

  /** Different hosts or ports are listed under different patterns. */
  lemma HostPatternInjective(h1: string, p1: nat, h2: string, p2: nat)
    requires h1 != [] && h1[0] != '[' && h2 != [] && h2[0] != '['
    requires HostPattern(h1, p1) == HostPattern(h2, p2)
    ensures h1 == h2 && p1 == p2
  {
    if p1 != 22 && p2 != 22 {
      DecimalDigits(p1);
      DecimalDigits(p2);
      LastColon("[" + h1 + "]", Decimal(p1), "[" + h2 + "]", Decimal(p2));
      DecimalInjective(p1, p2);
      var a, b := "[" + h1 + "]", "[" + h2 + "]";
      assert a[1..|a| - 1] == h1 && b[1..|b| - 1] == h2;
    }
  }

  /** The known_hosts file of a user. */
  class KnownHostsFile {
    var content: string

    constructor (content: string)
      ensures this.content == content
    {
      this.content := content;
    }

    method CheckHost(codec: Codec, hostname: string, port: nat, key: seq<byte>) returns (status: Status)
      ensures IsVerdict(Kinds(Query(codec, HostPattern(hostname, port), key), Lines(content)), status)
    {
      status := CheckHostKey(Query(codec, HostPattern(hostname, port), key), content);
    }

    /** Append an entry: from then on this host, port and key are known, and no other host changes. */
    method AddHost(hostname: string, port: nat, keyType: string, keyBase64: string)
      modifies this
      ensures content == Added(old(content), FormatEntry(HostPattern(hostname, port), keyType, keyBase64))
      ensures
        && Terminated(old(content)) && PlainHost(HostPattern(hostname, port))
        && PlainWord(keyType) && PlainWord(keyBase64)
        ==> forall q, s :: IsVerdict(Kinds(q, Lines(old(content))), s) ==>
          && (q.host == HostPattern(hostname, port) && q.codec.decode(keyBase64) == Some(q.key) ==>
                IsVerdict(Kinds(q, Lines(content)), if s.Revoked? then s else Known))
          && (q.host != HostPattern(hostname, port) ==> IsVerdict(Kinds(q, Lines(content)), s))
    {
      var host := HostPattern(hostname, port);
      content := content + (FormatEntry(host, keyType, keyBase64) + "\n");
      if Terminated(old(content)) && PlainHost(host) && PlainWord(keyType) && PlainWord(keyBase64) {
        forall q, s | IsVerdict(Kinds(q, Lines(old(content))), s)
          ensures q.host == host && q.codec.decode(keyBase64) == Some(q.key)
            ==> IsVerdict(Kinds(q, Lines(content)), if s.Revoked? then s else Known)
          ensures q.host != host ==> IsVerdict(Kinds(q, Lines(content)), s)
        {
          AddMakesKnown(q, old(content), host, keyType, keyBase64, s);
        }
      }
    }
  }
}
