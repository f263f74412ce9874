/** Which bookmarks a config file gives by itself, and what is in them, by the lines of the file. */
module SshImportBlocks {
  import opened Options
  import opened Sequences
  import opened SshImport

  /** What a setting may say; of the ports, only one that is valid says anything. */
  datatype Topic = HostTopic | UserTopic | PortTopic | IdentityTopic | JumpTopic | TimeoutTopic | CommandTopic
    | OptionTopic(name: string)

  predicate IsAbout(s: Setting, t: Topic) {
    match t
    case HostTopic => s.HostName?
    case UserTopic => s.User?
    case PortTopic => s.Port? && s.number.Some?
    case IdentityTopic => s.IdentityFile?
    case JumpTopic => s.ProxyJump?
    case TimeoutTopic => s.ConnectTimeout?
    case CommandTopic => s.RemoteCommand?
    case OptionTopic(name) => s.SshOption? && s.key == name
  }

  /** The last setting about a topic. */
  function Last(settings: seq<Setting>, t: Topic): (r: Option<Setting>)
    ensures r.Some? ==> IsAbout(r.value, t)
  {
    if settings == [] then None
    else if IsAbout(settings[|settings| - 1], t) then Some(settings[|settings| - 1])
    else Last(settings[..|settings| - 1], t)
  }

  ghost predicate IsLastAt(settings: seq<Setting>, t: Topic, i: nat)
    requires i < |settings|
  {
    IsAbout(settings[i], t) && forall k :: i < k < |settings| ==> !IsAbout(settings[k], t)
  }

  lemma {:induction false} LastExactly(settings: seq<Setting>, t: Topic, i: nat)
    requires i < |settings|
    ensures IsLastAt(settings, t, i) ==> Last(settings, t) == Some(settings[i])
    ensures Last(settings, t).None? ==> !IsAbout(settings[i], t)
    decreases |settings|
  {
    if i < |settings| - 1 {
      var front := settings[..|settings| - 1];
      LastExactly(front, t, i);
      if IsLastAt(settings, t, i) {
        assert forall k :: i < k < |front| ==> front[k] == settings[k];
        assert IsLastAt(front, t, i);
      }
    }
  }

  /** The settings up to the next Host line. */
  function Settings(lines: seq<Line>): seq<Setting> {
    if lines == [] || lines[0].Host? then []
    else (if lines[0].Set? then [lines[0].setting] else []) + Settings(lines[1..])
  }

  function LastText(settings: seq<Setting>, t: Topic): Option<string>
    requires !t.PortTopic? && !t.TimeoutTopic?
  {
    var last := Last(settings, t);
    if last.Some? then Some(last.value.v) else None
  }

  /** What a block holds about a topic. */
  datatype Held = Text(v: Option<string>) | Number(n: Option<nat>)

  function Field(b: HostBlock, t: Topic): Held {
    match t
    case HostTopic => Text(b.hostname)
    case UserTopic => Text(b.user)
    case PortTopic => Number(b.port)
    case IdentityTopic => Text(b.identityFile)
    case JumpTopic => Text(b.proxyJump)
    case TimeoutTopic => Number(b.connectTimeoutSecs)
    case CommandTopic => Text(b.onConnect)
    case OptionTopic(name) => Text(if name in b.sshOptions then Some(b.sshOptions[name]) else None)
  }

  /** The last setting counts; an invalid timeout clears the value. */
  function Expected(settings: seq<Setting>, t: Topic): Held {
    if t.PortTopic? then
      var port := Last(settings, t);
      Number(if port.Some? then port.value.number else None)
    else if t.TimeoutTopic? then
      var timeout := Last(settings, t);
      Number(if timeout.Some? then timeout.value.secs else None)
    else Text(LastText(settings, t))
  }

  lemma FieldNext(b: HostBlock, settings: seq<Setting>, s: Setting, t: Topic)
    requires Field(b, t) == Expected(settings, t)
    ensures Field(Apply(b, s), t) == Expected(settings + [s], t)
  {
    LastNext(settings, s, t);
  }

  lemma LastNext(settings: seq<Setting>, s: Setting, t: Topic)
    ensures Last(settings + [s], t) == if IsAbout(s, t) then Some(s) else Last(settings, t)
  {
    ConcatFront(settings, [s]);
    Unit(settings);
  }

  lemma {:induction false} SectionReflects(lines: seq<Line>, b: HostBlock, settings: seq<Setting>, t: Topic)
    requires Field(b, t) == Expected(settings, t)
    ensures Field(Section(lines, b), t) == Expected(settings + Settings(lines), t)
    decreases |lines|
  {
    if lines == [] || lines[0].Host? {
      Unit(settings);
    } else if lines[0].Set? {
      FieldNext(b, settings, lines[0].setting, t);
      SectionReflects(lines[1..], Apply(b, lines[0].setting), settings + [lines[0].setting], t);
      Assoc(settings, [lines[0].setting], Settings(lines[1..]));
    } else {
      SectionReflects(lines[1..], b, settings, t);
      Unit(Settings(lines[1..]));
    }
  }

  lemma {:induction false} SectionName(lines: seq<Line>, b: HostBlock)
    ensures Section(lines, b).name == b.name
  {
    if lines != [] && !lines[0].Host? {
      SectionName(lines[1..], if lines[0].Set? then Apply(b, lines[0].setting) else b);
    }
  }

  function Or<T>(o: Option<T>, otherwise: T): T {
    if o.Some? then o.value else otherwise
  }

  /** A bookmark with this name and these settings: the host defaults to the name, the port to 22. */
  ghost predicate IsBookmark(b: Bookmark, alias: string, settings: seq<Setting>) {
    && b.name == alias
    && b.host == Or(LastText(settings, HostTopic), alias)
    && Expected(settings, PortTopic) == Number(if Last(settings, PortTopic).Some? then Some(b.port) else None)
    && (Last(settings, PortTopic).None? ==> b.port == 22)
    && b.user == LastText(settings, UserTopic)
    && b.identityFile == LastText(settings, IdentityTopic)
    && b.proxyJump == LastText(settings, JumpTopic)
    && b.onConnect == LastText(settings, CommandTopic)
    && Number(b.connectTimeoutSecs) == Expected(settings, TimeoutTopic)
    && forall name :: HasOption(b, settings, name)
  }

  ghost predicate HasOption(b: Bookmark, settings: seq<Setting>, name: string) {
    LastText(settings, OptionTopic(name)) == if name in b.sshOptions then Some(b.sshOptions[name]) else None
  }

  lemma SectionIsBookmark(alias: string, lines: seq<Line>)
    requires !IsWildcard(alias)
    ensures IsBookmark(IntoBookmark(Section(lines, NewBlock(alias).value)), alias, Settings(lines))
  {
    var b := NewBlock(alias).value;
    SectionName(lines, b);
    forall t ensures Field(Section(lines, b), t) == Expected(Settings(lines), t) {
      SectionReflects(lines, b, [], t);
      Unit(Settings(lines));
    }
    BlockIsBookmark(Section(lines, b), Settings(lines));
  }

  lemma BlockIsBookmark(b: HostBlock, settings: seq<Setting>)
    requires forall t :: Field(b, t) == Expected(settings, t)
    ensures IsBookmark(IntoBookmark(b), b.name, settings)
  {
    assert Field(b, HostTopic) == Expected(settings, HostTopic);
    assert Field(b, UserTopic) == Expected(settings, UserTopic);
    assert Field(b, PortTopic) == Expected(settings, PortTopic);
    assert Field(b, IdentityTopic) == Expected(settings, IdentityTopic);
    assert Field(b, JumpTopic) == Expected(settings, JumpTopic);
    assert Field(b, TimeoutTopic) == Expected(settings, TimeoutTopic);
    assert Field(b, CommandTopic) == Expected(settings, CommandTopic);
    forall name ensures HasOption(IntoBookmark(b), settings, name) {
      assert Field(b, OptionTopic(name)) == Expected(settings, OptionTopic(name));
    }
  }

  /** The line starts a bookmark: a Host line whose alias is no pattern. */
  predicate Starts(line: Line) {
    line.Host? && '*' !in line.alias && '?' !in line.alias
  }

  ghost predicate Rising(at: seq<nat>) {
    forall i, k :: 0 <= i < k < |at| ==> at[i] < at[k]
  }

  ghost predicate StartsAt(lines: seq<Line>, i: nat, b: Bookmark) {
    i < |lines| && Starts(lines[i]) && IsBookmark(b, lines[i].alias, Settings(lines[i + 1..]))
  }

  function Later(at: seq<nat>): (r: seq<nat>)
    ensures |r| == |at| && forall n :: 0 <= n < |at| ==> r[n] == at[n] + 1
  {
    seq(|at|, n requires 0 <= n < |at| => at[n] + 1)
  }

  lemma InLater(at: seq<nat>, i: nat)
    requires i in at
    ensures i + 1 in Later(at)
  {
    var n :| 0 <= n < |at| && at[n] == i;
    assert Later(at)[n] == i + 1;
  }

  lemma StartsLater(lines: seq<Line>, i: nat, b: Bookmark)
    requires lines != [] && StartsAt(lines[1..], i, b)
    ensures StartsAt(lines, i + 1, b)
  {
    assert lines[1..][i] == lines[i + 1] && lines[1..][i + 1..] == lines[i + 1 + 1..];
  }

  ghost predicate Listed(lines: seq<Line>, at: seq<nat>) {
    forall i :: 0 <= i < |lines| && Starts(lines[i]) ==> i in at
  }

  lemma ListedNext(lines: seq<Line>, at: seq<nat>, front: seq<nat>)
    requires lines != [] && Listed(lines[1..], at) && (Starts(lines[0]) ==> 0 in front)
    ensures Listed(lines, front + Later(at))
  {
    forall i | 0 <= i < |lines| && Starts(lines[i]) ensures i in front + Later(at) {
      if i > 0 {
        assert lines[1..][i - 1] == lines[i];
        InLater(at, i - 1);
      }
    }
  }

  ghost predicate StartedAt(lines: seq<Line>, own: seq<Bookmark>, at: seq<nat>) {
    |own| == |at| && forall n :: 0 <= n < |own| ==> StartsAt(lines, at[n], own[n])
  }

  lemma StartedLater(lines: seq<Line>, own: seq<Bookmark>, at: seq<nat>)
    requires lines != [] && StartedAt(lines[1..], own, at)
    ensures StartedAt(lines, own, Later(at))
  {
    forall n | 0 <= n < |own| ensures StartsAt(lines, Later(at)[n], own[n]) {
      StartsLater(lines, at[n], own[n]);
    }
  }

  lemma StartedFirst(lines: seq<Line>, own: seq<Bookmark>, at: seq<nat>, b: Bookmark)
    requires StartedAt(lines, own, at) && StartsAt(lines, 0, b)
    ensures StartedAt(lines, [b] + own, [0] + at)
  {
  }

  lemma RisingNext(at: seq<nat>)
    requires Rising(at)
    ensures Rising(Later(at)) && Rising([0] + Later(at))
  {
  }

  /** Bookmark by bookmark: the Host lines in `at`, which are all that start one, in order. */
  ghost predicate OwnedAt(lines: seq<Line>, own: seq<Bookmark>, at: seq<nat>) {
    Rising(at) && Listed(lines, at) && StartedAt(lines, own, at)
  }

  /**
   * The bookmarks of a file's own Host lines: one for each that names no pattern, in order, with
   * the settings up to the next Host line.
   */
  lemma {:induction false} OwnExactly(lines: seq<Line>) returns (at: seq<nat>)
    ensures OwnedAt(lines, OwnBookmarks(lines), at)
    decreases |lines|
  {
    if lines == [] {
      at := [];
    } else {
      var rest := OwnExactly(lines[1..]);
      RisingNext(rest);
      StartedLater(lines, OwnBookmarks(lines[1..]), rest);
      if Starts(lines[0]) {
        var b := IntoBookmark(Section(lines[1..], NewBlock(lines[0].alias).value));
        SectionIsBookmark(lines[0].alias, lines[1..]);
        StartedFirst(lines, OwnBookmarks(lines[1..]), Later(rest), b);
        assert OwnBookmarks(lines) == [b] + OwnBookmarks(lines[1..]);
        at := [0] + Later(rest);
        ListedNext(lines, rest, [0]);
      } else {
        Unit(OwnBookmarks(lines[1..]));
        ListedNext(lines, rest, []);
        Unit(Later(rest));
        at := Later(rest);
      }
    }
  }
}
