/**
 * The order in which an import returns its bookmarks: files are expanded depth first where they are
 * first included, and a Host block comes after the files that its section includes.
 */
module SshImportOrder {
  import opened Options
  import opened Sequences
  import opened SshImport

  /** One place in the result that a file lays out: a bookmark of its own, or a file to follow. */
  datatype Slot = Own(bookmark: Bookmark) | Follow(path: Path) | BadPattern

  function Follows(targets: seq<Path>): seq<Slot> {
    if targets == [] then [] else [Follow(targets[0])] + Follows(targets[1..])
  }

  function MentionsOf(line: Line): seq<Slot> {
    if !line.Include? then [] else if line.targets.None? then [BadPattern] else Follows(line.targets.value)
  }

  function Mentions(lines: seq<Line>): seq<Slot> {
    if lines == [] then [] else MentionsOf(lines[0]) + Mentions(lines[1..])
  }

  /** How many lines belong to the section that is open. */
  function SectionLength(lines: seq<Line>): (n: nat)
    ensures n <= |lines|
  {
    if lines == [] || lines[0].Host? then 0 else 1 + SectionLength(lines[1..])
  }

  function OwnSlot(block: Option<HostBlock>, lines: seq<Line>): seq<Slot> {
    if block.Some? then [Own(IntoBookmark(Section(lines, block.value)))] else []
  }

  /** A section's files, then its bookmark, then the next section. */
  function Layout(lines: seq<Line>): seq<Slot> {
    if lines == [] then []
    else if lines[0].Host? then
      var rest := lines[1..];
      var n := SectionLength(rest);
      Mentions(rest[..n]) + OwnSlot(NewBlock(lines[0].alias), rest) + Layout(rest[n..])
    else MentionsOf(lines[0]) + Layout(lines[1..])
  }

  /** Depth-first expansion of a layout; a file already visited expands to nothing. */
  ghost function Expand(fs: Files, slots: seq<Slot>, visited: set<Path>): (r: Outcome)
    ensures visited <= r.visited
    decreases |fs.Keys - visited|, |slots|
  {
    if slots == [] then Outcome(visited, Some([]))
    else
      match slots[0]
      case Own(b) => Behind([b], Expand(fs, slots[1..], visited))
      case BadPattern => Outcome(visited, None)
      case Follow(p) =>
        if p in visited then Expand(fs, slots[1..], visited)
        else if Read(fs, p).None? then Outcome(visited + {p}, None)
        else
          Progress(fs, visited, visited + {p}, p);
          var r := Expand(fs, Layout(Read(fs, p).value), visited + {p});
          NoRegress(fs, visited, r.visited);
          if r.bookmarks.None? then r else Behind(r.bookmarks.value, Expand(fs, slots[1..], r.visited))
  }

  function Behind(front: seq<Bookmark>, r: Outcome): Outcome {
    Outcome(r.visited, if r.bookmarks.None? then None else Some(front + r.bookmarks.value))
  }

  lemma BehindBehind(a: seq<Bookmark>, b: seq<Bookmark>, r: Outcome)
    ensures Behind(a, Behind(b, r)) == Behind(a + b, r)
    ensures Behind([], r) == r
  {
    if r.bookmarks.Some? {
      Assoc(a, b, r.bookmarks.value);
      Unit(r.bookmarks.value);
    }
  }

  // ---- layouts ----

  /** What is still to come while `block` is open. */
  function Upcoming(lines: seq<Line>, block: Option<HostBlock>): seq<Slot> {
    var n := SectionLength(lines);
    Mentions(lines[..n]) + OwnSlot(block, lines) + Layout(lines[n..])
  }

  lemma UpcomingAtHost(lines: seq<Line>, block: Option<HostBlock>)
    requires lines != [] && lines[0].Host?
    ensures Upcoming(lines, block) == OwnSlot(block, []) + Upcoming(lines[1..], NewBlock(lines[0].alias))
  {
    Whole(lines);
    Unit(OwnSlot(block, lines));
  }

  lemma UpcomingInBlock(lines: seq<Line>, block: Option<HostBlock>)
    requires lines != [] && !lines[0].Host?
    ensures Upcoming(lines, block) == MentionsOf(lines[0])
      + Upcoming(lines[1..], if lines[0].Set? then ApplyOpen(block, lines[0].setting) else block)
  {
    var n, rest := SectionLength(lines), lines[1..];
    assert lines[..n][1..] == rest[..n - 1] && lines[n..] == rest[n - 1..];
    var next := if lines[0].Set? then ApplyOpen(block, lines[0].setting) else block;
    assert OwnSlot(block, lines) == OwnSlot(next, rest);
    Assoc(MentionsOf(lines[0]), Mentions(rest[..n - 1]), OwnSlot(next, rest));
    Assoc(MentionsOf(lines[0]), Mentions(rest[..n - 1]) + OwnSlot(next, rest), Layout(rest[n - 1..]));
  }

  lemma {:induction false} UpcomingWithoutBlock(lines: seq<Line>)
    ensures Upcoming(lines, None) == Layout(lines)
    decreases |lines|
  {
    if lines == [] {
    } else if lines[0].Host? {
      UpcomingAtHost(lines, None);
      Unit(Layout(lines));
    } else {
      UpcomingInBlock(lines, None);
      UpcomingWithoutBlock(lines[1..]);
    }
  }

  function Owns(slots: seq<Slot>): seq<Bookmark> {
    if slots == [] then [] else (if slots[0].Own? then [slots[0].bookmark] else []) + Owns(slots[1..])
  }

  lemma {:induction false} OwnsConcat(a: seq<Slot>, b: seq<Slot>)
    ensures Owns(a + b) == Owns(a) + Owns(b)
    decreases |a|
  {
    if a == [] {
      Unit(b);
      Unit(Owns(b));
    } else {
      DropWithin(a, b, 1);
      OwnsConcat(a[1..], b);
      Assoc(if a[0].Own? then [a[0].bookmark] else [], Owns(a[1..]), Owns(b));
    }
  }

  lemma {:induction false} FollowsOwnNothing(targets: seq<Path>)
    ensures Owns(Follows(targets)) == []
  {
    if targets != [] {
      FollowsOwnNothing(targets[1..]);
      assert ([Follow(targets[0])] + Follows(targets[1..]))[1..] == Follows(targets[1..]);
    }
  }

  /** A layout holds the file's own bookmarks, in the order of their Host lines. */
  lemma {:induction false} UpcomingOwns(lines: seq<Line>, block: Option<HostBlock>)
    ensures Owns(Upcoming(lines, block)) == Pending(lines, block)
    decreases |lines|
  {
    if lines == [] {
      assert Owns(OwnSlot(block, [])) == Pending([], block);
      Unit(OwnSlot(block, lines));
    } else if lines[0].Host? {
      UpcomingAtHost(lines, block);
      OwnsConcat(OwnSlot(block, []), Upcoming(lines[1..], NewBlock(lines[0].alias)));
      UpcomingOwns(lines[1..], NewBlock(lines[0].alias));
      PendingAtHost(lines, block);
      assert Owns(OwnSlot(block, [])) == Close(block);
    } else {
      var next := if lines[0].Set? then ApplyOpen(block, lines[0].setting) else block;
      UpcomingInBlock(lines, block);
      OwnsConcat(MentionsOf(lines[0]), Upcoming(lines[1..], next));
      UpcomingOwns(lines[1..], next);
      PendingInBlock(lines, block);
      if lines[0].Include? && lines[0].targets.Some? {
        FollowsOwnNothing(lines[0].targets.value);
      }
      assert Owns(MentionsOf(lines[0])) == [];
    }
  }

  lemma LayoutOwns(lines: seq<Line>)
    ensures Owns(Layout(lines)) == OwnBookmarks(lines)
  {
    UpcomingWithoutBlock(lines);
    UpcomingOwns(lines, None);
    Unit(OwnBookmarks(lines));
  }

  // ---- the traversal follows the layouts ----

  lemma {:induction false} ExpandConcat(fs: Files, a: seq<Slot>, b: seq<Slot>, visited: set<Path>)
    ensures Expand(fs, a + b, visited) ==
      var r := Expand(fs, a, visited);
      if r.bookmarks.None? then r else Behind(r.bookmarks.value, Expand(fs, b, r.visited))
    decreases |a|
  {
    if a == [] {
      Unit(b);
      BehindBehind([], [], Expand(fs, b, visited));
    } else {
      DropWithin(a, b, 1);
      match a[0]
      case Own(x) =>
        ExpandConcat(fs, a[1..], b, visited);
        Chained([x], Expand(fs, a[1..], visited), fs, b);
      case BadPattern =>
      case Follow(p) =>
        if p in visited {
          ExpandConcat(fs, a[1..], b, visited);
        } else if Read(fs, p).Some? {
          var r := Expand(fs, Layout(Read(fs, p).value), visited + {p});
          if r.bookmarks.Some? {
            ExpandConcat(fs, a[1..], b, r.visited);
            Chained(r.bookmarks.value, Expand(fs, a[1..], r.visited), fs, b);
          }
        }
    }
  }

  lemma Chained(front: seq<Bookmark>, r: Outcome, fs: Files, b: seq<Slot>)
    ensures r.bookmarks.Some? ==>
      Behind(front, Behind(r.bookmarks.value, Expand(fs, b, r.visited)))
      == Behind(Behind(front, r).bookmarks.value, Expand(fs, b, r.visited))
  {
    if r.bookmarks.Some? {
      BehindBehind(front, r.bookmarks.value, Expand(fs, b, r.visited));
    }
  }

  lemma {:induction false} FileInOrder(fs: Files, p: Path, visited: set<Path>)
    ensures ParseFile(fs, p, visited) == Expand(fs, [Follow(p)], visited)
    decreases |fs.Keys - visited|, 0, 0
  {
    if p !in visited && Read(fs, p).Some? {
      var lines, w := Read(fs, p).value, visited + {p};
      Progress(fs, visited, w, p);
      LinesInOrder(fs, lines, None, [], w);
      UpcomingWithoutBlock(lines);
      BehindBehind([], [], Expand(fs, Layout(lines), w));
      var r := Expand(fs, Layout(lines), w);
      if r.bookmarks.Some? {
        Unit(r.bookmarks.value);
      }
    }
  }

  lemma {:induction false} LinesInOrder(fs: Files, lines: seq<Line>, block: Option<HostBlock>, acc: seq<Bookmark>,
      visited: set<Path>)
    ensures ParseLines(fs, lines, block, acc, visited) == Behind(acc, Expand(fs, Upcoming(lines, block), visited))
    decreases |fs.Keys - visited|, 2, |lines|
  {
    if lines == [] {
      Unit(OwnSlot(block, lines));
      OwnExpands(fs, block, [], visited);
      BehindBehind(acc, Close(block), Outcome(visited, Some([])));
      Unit(acc + Close(block));
    } else if lines[0].Host? {
      var next := NewBlock(lines[0].alias);
      UpcomingAtHost(lines, block);
      OwnExpands(fs, block, Upcoming(lines[1..], next), visited);
      LinesInOrder(fs, lines[1..], next, acc + Close(block), visited);
      BehindBehind(acc, Close(block), Expand(fs, Upcoming(lines[1..], next), visited));
    } else {
      UpcomingInBlock(lines, block);
      if lines[0].Include? {
        IncludeInOrder(fs, lines, block, acc, visited);
      } else {
        var next := if lines[0].Set? then ApplyOpen(block, lines[0].setting) else block;
        LinesInOrder(fs, lines[1..], next, acc, visited);
        Unit(Upcoming(lines[1..], next));
      }
    }
  }

  lemma OwnExpands(fs: Files, block: Option<HostBlock>, more: seq<Slot>, visited: set<Path>)
    ensures Expand(fs, OwnSlot(block, []) + more, visited) == Behind(Close(block), Expand(fs, more, visited))
  {
    BehindBehind([], [], Expand(fs, more, visited));
    Unit(more);
    if block.Some? {
      DropWithin(OwnSlot(block, []), more, 1);
    }
  }

  lemma {:induction false} IncludeInOrder(fs: Files, lines: seq<Line>, block: Option<HostBlock>, acc: seq<Bookmark>,
      visited: set<Path>)
    requires lines != [] && lines[0].Include?
    ensures ParseLines(fs, lines, block, acc, visited)
      == Behind(acc, Expand(fs, MentionsOf(lines[0]) + Upcoming(lines[1..], block), visited))
    decreases |fs.Keys - visited|, 2, |lines|, 0
  {
    if lines[0].targets.None? {
      DropWithin([BadPattern], Upcoming(lines[1..], block), 1);
    } else {
      var targets := lines[0].targets.value;
      TargetsInOrder(fs, targets, visited);
      var r := ParseIncludes(fs, targets, [], visited);
      if r.bookmarks.Some? {
        NoRegress(fs, visited, r.visited);
        LinesInOrder(fs, lines[1..], block, acc + r.bookmarks.value, r.visited);
      }
      IncludeJoins(fs, lines, targets, block, acc, visited, Upcoming(lines[1..], block));
    }
  }

  lemma {:induction false} TargetsInOrder(fs: Files, targets: seq<Path>, visited: set<Path>)
    ensures ParseIncludes(fs, targets, [], visited) == Expand(fs, Follows(targets), visited)
    decreases |fs.Keys - visited|, 1, |targets|, 1
  {
    IncludesInOrder(fs, targets, [], visited);
    BehindBehind([], [], Expand(fs, Follows(targets), visited));
  }

  lemma IncludeJoins(fs: Files, lines: seq<Line>, targets: seq<Path>, block: Option<HostBlock>, acc: seq<Bookmark>,
      visited: set<Path>, rest: seq<Slot>)
    requires lines != [] && lines[0] == Include(Some(targets))
    requires ParseIncludes(fs, targets, [], visited) == Expand(fs, Follows(targets), visited)
    requires var r := ParseIncludes(fs, targets, [], visited);
      r.bookmarks.Some? ==>
      ParseLines(fs, lines[1..], block, acc + r.bookmarks.value, r.visited)
      == Behind(acc + r.bookmarks.value, Expand(fs, rest, r.visited))
    ensures ParseLines(fs, lines, block, acc, visited) == Behind(acc, Expand(fs, Follows(targets) + rest, visited))
  {
    var r := ParseIncludes(fs, targets, [], visited);
    ExpandConcat(fs, Follows(targets), rest, visited);
    if r.bookmarks.Some? {
      BehindBehind(acc, r.bookmarks.value, Expand(fs, rest, r.visited));
    }
  }

  lemma {:induction false} IncludesInOrder(fs: Files, targets: seq<Path>, acc: seq<Bookmark>, visited: set<Path>)
    ensures ParseIncludes(fs, targets, acc, visited) == Behind(acc, Expand(fs, Follows(targets), visited))
    decreases |fs.Keys - visited|, 1, |targets|, 0
  {
    if targets == [] {
      Unit(acc);
    } else {
      FileInOrder(fs, targets[0], visited);
      ExpandConcat(fs, [Follow(targets[0])], Follows(targets[1..]), visited);
      var r := ParseFile(fs, targets[0], visited);
      if r.bookmarks.Some? {
        NoRegress(fs, visited, r.visited);
        IncludesInOrder(fs, targets[1..], acc + r.bookmarks.value, r.visited);
        BehindBehind(acc, r.bookmarks.value, Expand(fs, Follows(targets[1..]), r.visited));
      }
    }
  }

  /** An import returns the depth-first expansion of the root's layout, failures included. */
  lemma ImportInOrder(fs: Files, root: Path)
    ensures ParseFile(fs, root, {}) == Expand(fs, [Follow(root)], {})
  {
    FileInOrder(fs, root, {});
  }
}
