/** The import as it runs: one visited set shared by all recursive calls. */
module SshImportEngine {
  import opened Options
  import opened Measures
  import opened SshImport
  import opened SshImportOrder

  class Importer {
    const files: Files
    var visited: set<Path>

    constructor (files: Files)
      ensures this.files == files && visited == {}
    {
      this.files := files;
      visited := {};
    }

    method ParseRecursive(path: Path) returns (r: Option<seq<Bookmark>>)
      modifies this
      ensures Outcome(visited, r) == ParseFile(files, path, old(visited))
      decreases |files.Keys - visited|, 0, 0
    {
      if path in visited {
        return Some([]);
      }
      visited := visited + {path};
      var content := Read(files, path);
      if content.None? {
        return None;
      }
      Progress(files, old(visited), visited, path);
      var lines := content.value;
      var bookmarks: seq<Bookmark> := [];
      var currentBlock: Option<HostBlock> := None;
      ghost var start := visited;
      var i := 0;
      while i < |lines|
        invariant 0 <= i <= |lines|
        invariant start <= visited
        invariant ParseLines(files, lines[i..], currentBlock, bookmarks, visited)
          == ParseLines(files, lines, None, [], start)
      {
        NoRegress(files, start, visited);
        match lines[i] {
          case Host(alias) =>
            if currentBlock.Some? {
              bookmarks := bookmarks + [IntoBookmark(currentBlock.value)];
            } else {
              assert bookmarks + [] == bookmarks;
            }
            currentBlock := NewBlock(alias);
          case Set(setting) =>
            if currentBlock.Some? {
              currentBlock := Some(Apply(currentBlock.value, setting));
            }
          case Include(None) =>
            return None;
          case Include(Some(targets)) =>
            var included := ResolveIncludes(targets);
            if included.None? {
              return None;
            }
            bookmarks := bookmarks + included.value;
          case Ignored =>
        }
        i := i + 1;
      }
      if currentBlock.Some? {
        bookmarks := bookmarks + [IntoBookmark(currentBlock.value)];
      } else {
        assert bookmarks + [] == bookmarks;
      }
      r := Some(bookmarks);
    }

    method ResolveIncludes(targets: seq<Path>) returns (r: Option<seq<Bookmark>>)
      modifies this
      ensures Outcome(visited, r) == ParseIncludes(files, targets, [], old(visited))
      decreases |files.Keys - visited|, 1, |targets|
    {
      var bookmarks: seq<Bookmark> := [];
      var i := 0;
      while i < |targets|
        invariant 0 <= i <= |targets|
        invariant old(visited) <= visited
        invariant ParseIncludes(files, targets[i..], bookmarks, visited)
          == ParseIncludes(files, targets, [], old(visited))
      {
        NoRegress(files, old(visited), visited);
        var included := ParseRecursive(targets[i]);
        if included.None? {
          return None;
        }
        bookmarks := bookmarks + included.value;
        i := i + 1;
      }
      r := Some(bookmarks);
    }
  }

  /**
   * Importing a config file succeeds exactly when every file reachable through Include lines can
   * be read and expanded.  Every one of them, and no other, has then contributed its bookmarks once,
   * in the order of the depth-first expansion.
   */
  method ParseSshConfig(files: Files, root: Path) returns (r: Option<seq<Bookmark>>, ghost visited: set<Path>)
    ensures r.Some? <==> forall q :: Reachable(files, root, q) ==> Good(files, q)
    ensures r.Some? ==> forall q :: q in visited <==> Reachable(files, root, q)
    ensures r.Some? ==> multiset(r.value) == AllBookmarks(files, visited)
    ensures r == Expand(files, [Follow(root)], {}).bookmarks
  {
    var importer := new Importer(files);
    r := importer.ParseRecursive(root);
    visited := importer.visited;
    LengthAdditive<Bookmark>();
    ImportExactly(files, root, Length());
    ImportInOrder(files, root);
    if r.Some? {
      ImportedOnce(files, root);
    }
  }
}
