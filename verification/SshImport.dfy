/**
 * Importing an SSH config: Host blocks become bookmarks, Include lines are followed depth first
 * over a graph of files that may be cyclic.
 */
module SshImport {
  import opened Options
  import opened Measures
  import opened Sequences

  const DEFAULT_SSH_PORT: nat := 22

  /** A canonical path. */
  datatype Path = Path(name: string)

  datatype Setting =
    | HostName(v: string)
    | User(v: string)
    | Port(number: Option<nat>)
    | IdentityFile(v: string)
    | ProxyJump(v: string)
    | ConnectTimeout(secs: Option<nat>)
    | RemoteCommand(v: string)
    | SshOption(key: string, v: string)

  /** A config line; an Include carries the files its pattern expands to, None for a bad pattern. */
  datatype Line =
    | Host(alias: string)
    | Set(setting: Setting)
    | Include(targets: Option<seq<Path>>)
    | Ignored

  datatype HostBlock = HostBlock(
    name: string,
    hostname: Option<string>,
    user: Option<string>,
    port: Option<nat>,
    identityFile: Option<string>,
    proxyJump: Option<string>,
    onConnect: Option<string>,
    connectTimeoutSecs: Option<nat>,
    sshOptions: map<string, string>)

  datatype Bookmark = Bookmark(
    name: string,
    host: string,
    user: Option<string>,
    port: nat,
    identityFile: Option<string>,
    proxyJump: Option<string>,
    onConnect: Option<string>,
    connectTimeoutSecs: Option<nat>,
    sshOptions: map<string, string>)

  /** Canonical path to content; None for a file that cannot be read. */
  type Files = map<Path, Option<seq<Line>>>

  function Read(fs: Files, p: Path): Option<seq<Line>> {
    if p in fs then fs[p] else None
  }

  // ---- blocks ----

  predicate IsWildcard(alias: string) {
    '*' in alias || '?' in alias
  }

  function NewBlock(alias: string): Option<HostBlock> {
    if IsWildcard(alias) then None
    else Some(HostBlock(alias, None, None, None, None, None, None, None, map[]))
  }

  /** A directive inside a block; an invalid port is ignored, an invalid timeout clears the value. */
  function Apply(b: HostBlock, s: Setting): HostBlock {
    match s
    case HostName(v) => b.(hostname := Some(v))
    case User(v) => b.(user := Some(v))
    case Port(number) => if number.Some? then b.(port := number) else b
    case IdentityFile(v) => b.(identityFile := Some(v))
    case ProxyJump(v) => b.(proxyJump := Some(v))
    case ConnectTimeout(secs) => b.(connectTimeoutSecs := secs)
    case RemoteCommand(v) => b.(onConnect := Some(v))
    case SshOption(key, v) => b.(sshOptions := b.sshOptions[key := v])
  }

  function ApplyOpen(block: Option<HostBlock>, s: Setting): Option<HostBlock> {
    if block.Some? then Some(Apply(block.value, s)) else None
  }

  function IntoBookmark(b: HostBlock): Bookmark {
    Bookmark(b.name, if b.hostname.Some? then b.hostname.value else b.name, b.user,
             if b.port.Some? then b.port.value else DEFAULT_SSH_PORT,
             b.identityFile, b.proxyJump, b.onConnect, b.connectTimeoutSecs, b.sshOptions)
  }

  function Close(block: Option<HostBlock>): seq<Bookmark> {
    if block.Some? then [IntoBookmark(block.value)] else []
  }

  // ---- the traversal ----

  datatype Outcome = Outcome(visited: set<Path>, bookmarks: Option<seq<Bookmark>>)

  ghost function ParseFile(fs: Files, p: Path, visited: set<Path>): (r: Outcome)
    ensures visited <= r.visited
    decreases |fs.Keys - visited|, 0, 0
  {
    if p in visited then Outcome(visited, Some([]))
    else
      match Read(fs, p)
      case None => Outcome(visited + {p}, None)
      case Some(lines) =>
        Progress(fs, visited, visited + {p}, p);
        ParseLines(fs, lines, None, [], visited + {p})
  }

  ghost function ParseLines(fs: Files, lines: seq<Line>, block: Option<HostBlock>, acc: seq<Bookmark>,
      visited: set<Path>): (r: Outcome)
    ensures visited <= r.visited
    decreases |fs.Keys - visited|, 2, |lines|
  {
    if lines == [] then Outcome(visited, Some(acc + Close(block)))
    else
      match lines[0]
      case Host(alias) => ParseLines(fs, lines[1..], NewBlock(alias), acc + Close(block), visited)
      case Set(s) => ParseLines(fs, lines[1..], ApplyOpen(block, s), acc, visited)
      case Ignored => ParseLines(fs, lines[1..], block, acc, visited)
      case Include(None) => Outcome(visited, None)
      case Include(Some(targets)) =>
        var r := ParseIncludes(fs, targets, [], visited);
        NoRegress(fs, visited, r.visited);
        if r.bookmarks.None? then r else ParseLines(fs, lines[1..], block, acc + r.bookmarks.value, r.visited)
  }

  ghost function ParseIncludes(fs: Files, targets: seq<Path>, acc: seq<Bookmark>, visited: set<Path>): (r: Outcome)
    ensures visited <= r.visited
    decreases |fs.Keys - visited|, 1, |targets|
  {
    if targets == [] then Outcome(visited, Some(acc))
    else
      var r := ParseFile(fs, targets[0], visited);
      NoRegress(fs, visited, r.visited);
      if r.bookmarks.None? then r else ParseIncludes(fs, targets[1..], acc + r.bookmarks.value, r.visited)
  }

  lemma NoRegress(fs: Files, v: set<Path>, w: set<Path>)
    requires v <= w
    ensures |fs.Keys - w| <= |fs.Keys - v|
  {
    SubsetSize(fs.Keys - w, fs.Keys - v);
  }

  /** Visiting a readable file leaves fewer files to visit: the traversal terminates. */
  lemma Progress(fs: Files, v: set<Path>, w: set<Path>, p: Path)
    requires v <= w && p in fs && p !in v && p in w
    ensures |fs.Keys - w| < |fs.Keys - v|
  {
    SubsetSize(fs.Keys - w, fs.Keys - v - {p});
  }

  lemma {:induction false} SubsetSize<T>(a: set<T>, b: set<T>)
    requires a <= b
    ensures |a| <= |b|
    decreases a
  {
    if a != {} {
      var x :| x in a;
      SubsetSize(a - {x}, b - {x});
    }
  }

  // ---- the file graph ----

  ghost predicate Includes(lines: seq<Line>, q: Path) {
    exists i :: 0 <= i < |lines| && lines[i].Include? && lines[i].targets.Some? && q in lines[i].targets.value
  }

  /** The file can be read and all its Include patterns expand. */
  ghost predicate Good(fs: Files, p: Path) {
    Read(fs, p).Some? && forall i :: 0 <= i < |Read(fs, p).value| ==> Read(fs, p).value[i] != Include(None)
  }

  ghost predicate Edge(fs: Files, p: Path, q: Path) {
    Read(fs, p).Some? && Includes(Read(fs, p).value, q)
  }

  ghost predicate EdgeAt(fs: Files, w: seq<Path>, i: nat)
    requires i < |w| - 1
  {
    Edge(fs, w[i], w[i + 1])
  }

  ghost predicate Walk(fs: Files, w: seq<Path>) {
    |w| > 0 && forall i :: 0 <= i < |w| - 1 ==> EdgeAt(fs, w, i)
  }

  ghost predicate Reachable(fs: Files, p: Path, q: Path) {
    exists w :: Walk(fs, w) && w[0] == p && w[|w| - 1] == q
  }

  lemma ReachableSelf(fs: Files, p: Path)
    ensures Reachable(fs, p, p)
  {
    assert Walk(fs, [p]) && [p][0] == p && [p][|[p]| - 1] == p;
  }

  lemma ReachableStep(fs: Files, p: Path, q: Path, r: Path)
    requires Edge(fs, p, q) && Reachable(fs, q, r)
    ensures Reachable(fs, p, r)
  {
    var w :| Walk(fs, w) && w[0] == q && w[|w| - 1] == r;
    var u := [p] + w;
    forall i | 0 <= i < |u| - 1 ensures EdgeAt(fs, u, i) {
      assert i > 0 ==> EdgeAt(fs, w, i - 1);
    }
    assert Walk(fs, u) && u[0] == p && u[|u| - 1] == r;
  }

  /** A set that holds the root and everything its files include holds everything reachable. */
  lemma ClosedHoldsReachable(fs: Files, root: Path, q: Path, v: set<Path>)
    requires root in v && forall p :: p in v ==> Settled(fs, p, v)
    requires Reachable(fs, root, q)
    ensures q in v
  {
    var w :| Walk(fs, w) && w[0] == root && w[|w| - 1] == q;
    var i := 0;
    while i < |w| - 1
      invariant 0 <= i < |w|
      invariant w[i] in v
    {
      assert EdgeAt(fs, w, i) && Settled(fs, w[i], v);
      i := i + 1;
    }
  }

  // ---- what a file contributes ----

  /** The block of settings after a Host line, up to the next one. */
  function Section(lines: seq<Line>, b: HostBlock): HostBlock {
    if lines == [] || lines[0].Host? then b
    else Section(lines[1..], if lines[0].Set? then Apply(b, lines[0].setting) else b)
  }

  /** The bookmarks of a file's own Host lines, wildcards apart, in order. */
  function OwnBookmarks(lines: seq<Line>): seq<Bookmark> {
    if lines == [] then []
    else
      (if lines[0].Host? && NewBlock(lines[0].alias).Some?
       then [IntoBookmark(Section(lines[1..], NewBlock(lines[0].alias).value))] else [])
      + OwnBookmarks(lines[1..])
  }

  /** The bookmarks still to come from the open block and the rest of the file. */
  function Pending(lines: seq<Line>, block: Option<HostBlock>): seq<Bookmark> {
    (if block.Some? then [IntoBookmark(Section(lines, block.value))] else []) + OwnBookmarks(lines)
  }

  function Contribution(fs: Files, p: Path, f: Measure<Bookmark>): nat {
    if Read(fs, p).Some? then f(OwnBookmarks(Read(fs, p).value)) else 0
  }

  /** The contributions of a set of files, each once. */
  ghost function Total(fs: Files, ps: set<Path>, f: Measure<Bookmark>): nat {
    if ps == {} then 0
    else
      var p :| p in ps;
      Contribution(fs, p, f) + Total(fs, ps - {p}, f)
  }

  lemma {:induction false} TotalWithout(fs: Files, ps: set<Path>, p: Path, f: Measure<Bookmark>)
    requires p in ps
    ensures Total(fs, ps, f) == Contribution(fs, p, f) + Total(fs, ps - {p}, f)
    decreases ps
  {
    var q :| q in ps && Total(fs, ps, f) == Contribution(fs, q, f) + Total(fs, ps - {q}, f);
    if q != p {
      TotalWithout(fs, ps - {q}, p, f);
      TotalWithout(fs, ps - {p}, q, f);
      assert ps - {q} - {p} == ps - {p} - {q};
    }
  }

  lemma {:induction false} TotalUnion(fs: Files, a: set<Path>, b: set<Path>, f: Measure<Bookmark>)
    requires a !! b
    ensures Total(fs, a + b, f) == Total(fs, a, f) + Total(fs, b, f)
    decreases a
  {
    if a == {} {
      assert a + b == b;
    } else {
      var p :| p in a;
      TotalWithout(fs, a, p, f);
      TotalWithout(fs, a + b, p, f);
      TotalUnion(fs, a - {p}, b, f);
      assert a + b - {p} == (a - {p}) + b;
    }
  }

  function Contributed(fs: Files, p: Path): multiset<Bookmark> {
    if Read(fs, p).Some? then multiset(OwnBookmarks(Read(fs, p).value)) else multiset{}
  }

  /** The bookmarks of a set of files, each file's once. */
  ghost function AllBookmarks(fs: Files, ps: set<Path>): multiset<Bookmark> {
    if ps == {} then multiset{}
    else
      var p :| p in ps;
      Contributed(fs, p) + AllBookmarks(fs, ps - {p})
  }

  lemma {:induction false} TotalCounts(fs: Files, ps: set<Path>, x: Bookmark)
    ensures Total(fs, ps, Occurrences(x)) == AllBookmarks(fs, ps)[x]
    decreases ps
  {
    if ps != {} {
      var p :| p in ps && AllBookmarks(fs, ps) == Contributed(fs, p) + AllBookmarks(fs, ps - {p});
      TotalWithout(fs, ps, p, Occurrences(x));
      TotalCounts(fs, ps - {p}, x);
      assert Contribution(fs, p, Occurrences(x)) == Contributed(fs, p)[x];
      assert AllBookmarks(fs, ps)[x] == Contributed(fs, p)[x] + AllBookmarks(fs, ps - {p})[x];
    }
  }

  // ---- correctness ----

  /** A good file whose includes have all been visited. */
  ghost predicate Settled(fs: Files, p: Path, v: set<Path>) {
    Good(fs, p) && forall q :: Edge(fs, p, q) ==> q in v
  }

  predicate New(p: Path, v: set<Path>, w: set<Path>) {
    p in w && p !in v
  }

  /** What a step of the traversal that starts at `origin` has done between `v` and `w`. */
  ghost predicate Explored(fs: Files, origin: Path, v: set<Path>, w: set<Path>) {
    v <= w && forall p {:trigger New(p, v, w)} :: New(p, v, w) ==> Reachable(fs, origin, p) && Settled(fs, p, w)
  }

  ghost predicate Broken(fs: Files, origin: Path) {
    exists p :: Reachable(fs, origin, p) && !Good(fs, p)
  }

  /** A step that was given `before` and returned `r`: each newly visited file contributed once. */
  ghost predicate Collected(fs: Files, before: seq<Bookmark>, visited: set<Path>, r: Outcome, f: Measure<Bookmark>) {
    r.bookmarks.Some? && f(r.bookmarks.value) == f(before) + Total(fs, r.visited - visited, f)
  }

  lemma ExploredChain(fs: Files, origin: Path, u: set<Path>, v: set<Path>, w: set<Path>, f: Measure<Bookmark>)
    requires Explored(fs, origin, u, v) && Explored(fs, origin, v, w)
    ensures Explored(fs, origin, u, w)
    ensures Total(fs, w - u, f) == Total(fs, v - u, f) + Total(fs, w - v, f)
  {
    forall p | New(p, u, w) ensures Reachable(fs, origin, p) && Settled(fs, p, w) {
      assert New(p, u, v) || New(p, v, w);
    }
    TotalUnion(fs, v - u, w - v, f);
    assert (v - u) + (w - v) == w - u;
  }

  lemma ExploredFrom(fs: Files, origin: Path, q: Path, v: set<Path>, w: set<Path>)
    requires Edge(fs, origin, q) && Explored(fs, q, v, w)
    ensures Explored(fs, origin, v, w)
  {
    forall p | New(p, v, w) ensures Reachable(fs, origin, p) && Settled(fs, p, w) {
      ReachableStep(fs, origin, q, p);
    }
  }

  lemma ExploredNothing(fs: Files, origin: Path, v: set<Path>, f: Measure<Bookmark>)
    ensures Explored(fs, origin, v, v) && Total(fs, v - v, f) == 0
  {
    assert v - v == {};
  }

  lemma BrokenFrom(fs: Files, origin: Path, q: Path)
    requires Edge(fs, origin, q) && Broken(fs, q)
    ensures Broken(fs, origin)
  {
    var p :| Reachable(fs, q, p) && !Good(fs, p);
    ReachableStep(fs, origin, q, p);
  }

  lemma BrokenHere(fs: Files, p: Path)
    requires !Good(fs, p)
    ensures Broken(fs, p)
  {
    ReachableSelf(fs, p);
  }

  lemma {:induction false} FileExplored(fs: Files, p: Path, visited: set<Path>, f: Measure<Bookmark>)
    requires Additive(f)
    ensures var r := ParseFile(fs, p, visited);
      if r.bookmarks.Some?
      then p in r.visited && Explored(fs, p, visited, r.visited) && Collected(fs, [], visited, r, f)
      else Broken(fs, p)
    decreases |fs.Keys - visited|, 0, 0
  {
    CountConcat([], [], f);
    if p in visited {
      ExploredNothing(fs, p, visited, f);
    } else if Read(fs, p).None? {
      BrokenHere(fs, p);
    } else {
      var lines, w := Read(fs, p).value, visited + {p};
      Progress(fs, visited, w, p);
      LinesExplored(fs, p, lines, 0, None, [], w, f);
      assert lines[0..] == lines;
      var r := ParseLines(fs, lines, None, [], w);
      if r.bookmarks.Some? {
        EntryExplored(fs, p, visited, r.visited, f);
        assert [] + Pending(lines, None) == OwnBookmarks(lines);
      }
    }
  }

  lemma EntryExplored(fs: Files, p: Path, visited: set<Path>, v: set<Path>, f: Measure<Bookmark>)
    requires p !in visited && Explored(fs, p, visited + {p}, v) && Settled(fs, p, v)
    ensures Explored(fs, p, visited, v)
    ensures Total(fs, v - visited, f) == Contribution(fs, p, f) + Total(fs, v - (visited + {p}), f)
  {
    ReachableSelf(fs, p);
    forall q | New(q, visited, v) ensures Reachable(fs, p, q) && Settled(fs, q, v) {
      assert q == p || New(q, visited + {p}, v);
    }
    TotalWithout(fs, v - visited, p, f);
    assert v - visited - {p} == v - (visited + {p});
  }

  /** The first `i` lines hold no bad Include, and what they include has been visited. */
  ghost predicate LinesDone(lines: seq<Line>, i: nat, visited: set<Path>)
    requires i <= |lines|
  {
    && (forall k :: 0 <= k < i ==> lines[k] != Include(None))
    && (forall k, q :: 0 <= k < i && lines[k].Include? && lines[k].targets.Some? && q in lines[k].targets.value ==>
          q in visited)
  }

  ghost predicate LinesResult(fs: Files, p: Path, before: seq<Bookmark>, visited: set<Path>, r: Outcome,
      f: Measure<Bookmark>)
  {
    if r.bookmarks.Some?
    then Explored(fs, p, visited, r.visited) && Settled(fs, p, r.visited) && Collected(fs, before, visited, r, f)
    else Broken(fs, p)
  }

  lemma {:induction false} LinesExplored(fs: Files, p: Path, lines: seq<Line>, i: nat,
      block: Option<HostBlock>, acc: seq<Bookmark>, visited: set<Path>, f: Measure<Bookmark>)
    requires Additive(f) && Read(fs, p) == Some(lines) && i <= |lines| && LinesDone(lines, i, visited)
    ensures var r := ParseLines(fs, lines[i..], block, acc, visited);
      LinesResult(fs, p, acc + Pending(lines[i..], block), visited, r, f)
    decreases |fs.Keys - visited|, 2, |lines| - i
  {
    if i == |lines| {
      ExploredNothing(fs, p, visited, f);
      assert lines[i..] == [];
      assert acc + Close(block) == acc + Pending([], block);
    } else {
      assert lines[i..][0] == lines[i] && lines[i..][1..] == lines[i + 1..];
      PendingAfter(lines[i..], block, acc);
      if lines[i] == Include(None) {
        BrokenHere(fs, p);
      } else if lines[i].Include? {
        IncludeLineExplored(fs, p, lines, i, block, acc, visited, f);
      } else {
        var (b, a) := AfterLine(lines[i], block, acc);
        LinesExplored(fs, p, lines, i + 1, b, a, visited, f);
      }
    }
  }

  /** The open block and the finished bookmarks after a line that is no Include. */
  function AfterLine(line: Line, block: Option<HostBlock>, acc: seq<Bookmark>): (Option<HostBlock>, seq<Bookmark>) {
    match line
    case Host(alias) => (NewBlock(alias), acc + Close(block))
    case Set(s) => (ApplyOpen(block, s), acc)
    case _ => (block, acc)
  }

  lemma PendingAfter(lines: seq<Line>, block: Option<HostBlock>, acc: seq<Bookmark>)
    requires lines != []
    ensures var (b, a) := AfterLine(lines[0], block, acc);
      acc + Pending(lines, block) == a + Pending(lines[1..], b)
    ensures lines[0].Include? ==> Pending(lines, block) == Pending(lines[1..], block)
  {
    var rest := lines[1..];
    if lines[0].Host? {
      PendingAtHost(lines, block);
      Assoc(acc, Close(block), Pending(rest, NewBlock(lines[0].alias)));
    } else {
      PendingInBlock(lines, block);
    }
  }

  lemma PendingAtHost(lines: seq<Line>, block: Option<HostBlock>)
    requires lines != [] && lines[0].Host?
    ensures Pending(lines, block) == Close(block) + Pending(lines[1..], NewBlock(lines[0].alias))
  {
  }

  lemma PendingInBlock(lines: seq<Line>, block: Option<HostBlock>)
    requires lines != [] && !lines[0].Host?
    ensures Pending(lines, block) ==
      Pending(lines[1..], if lines[0].Set? then ApplyOpen(block, lines[0].setting) else block)
  {
    assert [] + OwnBookmarks(lines[1..]) == OwnBookmarks(lines[1..]);
  }

  lemma {:induction false} IncludeLineExplored(fs: Files, p: Path, lines: seq<Line>, i: nat,
      block: Option<HostBlock>, acc: seq<Bookmark>, visited: set<Path>, f: Measure<Bookmark>)
    requires Additive(f) && Read(fs, p) == Some(lines) && i < |lines| && LinesDone(lines, i, visited)
    requires lines[i].Include? && lines[i].targets.Some?
    ensures var r := ParseLines(fs, lines[i..], block, acc, visited);
      LinesResult(fs, p, acc + Pending(lines[i + 1..], block), visited, r, f)
    decreases |fs.Keys - visited|, 2, |lines| - i, 0
  {
    var t := ParseIncludes(fs, lines[i].targets.value, [], visited);
    IncludedEdges(fs, p, lines, i);
    IncludesExplored(fs, p, lines[i].targets.value, [], visited, f);
    IncludeStep(fs, lines, i, block, acc, visited);
    if t.bookmarks.Some? {
      NoRegress(fs, visited, t.visited);
      DoneAfter(lines, i, visited, t.visited);
      LinesExplored(fs, p, lines, i + 1, block, acc + t.bookmarks.value, t.visited, f);
      var r := ParseLines(fs, lines[i + 1..], block, acc + t.bookmarks.value, t.visited);
      IncludedThenRest(fs, p, acc, Pending(lines[i + 1..], block), visited, t, r, f);
    }
  }

  lemma IncludeStep(fs: Files, lines: seq<Line>, i: nat, block: Option<HostBlock>, acc: seq<Bookmark>,
      visited: set<Path>)
    requires i < |lines| && lines[i].Include? && lines[i].targets.Some?
    ensures var t := ParseIncludes(fs, lines[i].targets.value, [], visited);
      ParseLines(fs, lines[i..], block, acc, visited) ==
      if t.bookmarks.None? then t else ParseLines(fs, lines[i + 1..], block, acc + t.bookmarks.value, t.visited)
  {
    DropDrop(lines, i, 1);
  }

  lemma IncludedEdges(fs: Files, p: Path, lines: seq<Line>, i: nat)
    requires Read(fs, p) == Some(lines) && i < |lines| && lines[i].Include? && lines[i].targets.Some?
    ensures forall k :: 0 <= k < |lines[i].targets.value| ==> Edge(fs, p, lines[i].targets.value[k])
  {
    forall k | 0 <= k < |lines[i].targets.value| ensures Edge(fs, p, lines[i].targets.value[k]) {
      assert Includes(lines, lines[i].targets.value[k]);
    }
  }

  lemma DoneAfter(lines: seq<Line>, i: nat, v: set<Path>, w: set<Path>)
    requires i < |lines| && LinesDone(lines, i, v) && v <= w && lines[i].Include? && lines[i].targets.Some?
    requires forall k :: 0 <= k < |lines[i].targets.value| ==> lines[i].targets.value[k] in w
    ensures LinesDone(lines, i + 1, w)
  {
  }

  /** What the included files bring, and then the rest of the lines. */
  lemma IncludedThenRest(fs: Files, p: Path, acc: seq<Bookmark>, pending: seq<Bookmark>, visited: set<Path>,
      t: Outcome, r: Outcome, f: Measure<Bookmark>)
    requires Additive(f) && Explored(fs, p, visited, t.visited) && Collected(fs, [], visited, t, f)
    requires LinesResult(fs, p, acc + t.bookmarks.value + pending, t.visited, r, f)
    ensures LinesResult(fs, p, acc + pending, visited, r, f)
  {
    if r.bookmarks.Some? {
      ExploredChain(fs, p, visited, t.visited, r.visited, f);
      CountMiddle(acc, t.bookmarks.value, pending, f);
      CountConcat([], [], f);
    }
  }

  lemma CountMiddle(a: seq<Bookmark>, b: seq<Bookmark>, c: seq<Bookmark>, f: Measure<Bookmark>)
    requires Additive(f)
    ensures f(a + b + c) == f(a + c) + f(b)
  {
    CountConcat(a + b, c, f);
    CountConcat(a, b, f);
    CountConcat(a, c, f);
  }

  lemma {:induction false} IncludesExplored(fs: Files, origin: Path, targets: seq<Path>, acc: seq<Bookmark>,
      visited: set<Path>, f: Measure<Bookmark>)
    requires Additive(f) && forall k :: 0 <= k < |targets| ==> Edge(fs, origin, targets[k])
    ensures var r := ParseIncludes(fs, targets, acc, visited);
      if r.bookmarks.Some?
      then Explored(fs, origin, visited, r.visited) && Collected(fs, acc, visited, r, f)
        && forall k :: 0 <= k < |targets| ==> targets[k] in r.visited
      else Broken(fs, origin)
    decreases |fs.Keys - visited|, 1, |targets|
  {
    if targets == [] {
      ExploredNothing(fs, origin, visited, f);
    } else {
      var q, rest := targets[0], targets[1..];
      var t := ParseFile(fs, q, visited);
      FileExplored(fs, q, visited, f);
      if t.bookmarks.None? {
        BrokenFrom(fs, origin, q);
      } else {
        NoRegress(fs, visited, t.visited);
        assert forall k :: 0 <= k < |rest| ==> rest[k] == targets[k + 1];
        IncludesExplored(fs, origin, rest, acc + t.bookmarks.value, t.visited, f);
        var r := ParseIncludes(fs, rest, acc + t.bookmarks.value, t.visited);
        if r.bookmarks.Some? {
          ExploredFrom(fs, origin, q, visited, t.visited);
          ExploredChain(fs, origin, visited, t.visited, r.visited, f);
          CountConcat(acc, t.bookmarks.value, f);
          CountConcat([], [], f);
        }
      }
    }
  }

  /**
   * An import succeeds exactly when every file reachable from the root can be read and expanded.
   * Then it has visited exactly the reachable files, and the result holds the bookmarks of each of
   * them once: any measure of the result is the sum over those files.
   */
  lemma ImportExactly(fs: Files, root: Path, f: Measure<Bookmark>)
    requires Additive(f)
    ensures var r := ParseFile(fs, root, {});
      && (r.bookmarks.Some? <==> forall q :: Reachable(fs, root, q) ==> Good(fs, q))
      && (r.bookmarks.Some? ==>
            (forall q :: q in r.visited <==> Reachable(fs, root, q)) &&
            f(r.bookmarks.value) == Total(fs, r.visited, f))
  {
    var r := ParseFile(fs, root, {});
    FileExplored(fs, root, {}, f);
    CountConcat([], [], f);
    if r.bookmarks.Some? {
      assert r.visited - {} == r.visited;
      assert forall q :: q in r.visited ==> New(q, {}, r.visited);
      forall q | Reachable(fs, root, q) ensures q in r.visited && Good(fs, q) {
        ClosedHoldsReachable(fs, root, q, r.visited);
        assert Settled(fs, q, r.visited);
      }
    }
  }

  /** The same as multisets: the result holds the bookmarks of all visited files, each file's once. */
  lemma ImportedOnce(fs: Files, root: Path)
    requires ParseFile(fs, root, {}).bookmarks.Some?
    ensures var r := ParseFile(fs, root, {}); multiset(r.bookmarks.value) == AllBookmarks(fs, r.visited)
  {
    var r := ParseFile(fs, root, {});
    forall x ensures multiset(r.bookmarks.value)[x] == AllBookmarks(fs, r.visited)[x] {
      OccurrencesAdditive(x);
      ImportExactly(fs, root, Occurrences(x));
      TotalCounts(fs, r.visited, x);
    }
  }
}
