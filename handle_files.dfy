/** The file-tree helpers (kodi_addon_checker/handle_files.py): the
    `os.walk` traversal, the file index, the recursive name search and the
    term search over lines. The tree on disk is the input `Dir`; a file's
    contents are the lines reading it in text mode yields. */
module HandleFiles {

  import opened Text
  import opened Paths

  /** A regular file: its name and its lines, each with its line end. */
  datatype File = File(name: string, lines: seq<string>)

  /** A directory, its entries in the order the listing gives them. */
  datatype Dir = Dir(files: seq<File>, folders: seq<Folder>)

  /** A sub-directory and its name. */
  datatype Folder = Folder(name: string, dir: Dir)

  /** One triple `(root, folders, files)` of `os.walk`; `trail` holds the
      names of the folders descended through from the top. */
  datatype Step = Step(root: string, trail: seq<string>, files: seq<File>)

  /** The entry names of a directory are unique, on every level. */
  predicate Listed(d: Dir)
    decreases d, 1
  {
    && (forall i, j :: 0 <= i < j < |d.folders| ==> d.folders[i].name != d.folders[j].name)
    && ListedAll(d.folders)
  }

  predicate ListedAll(fs: seq<Folder>)
    decreases fs, 0
  {
    fs == [] || (Listed(fs[0].dir) && ListedAll(fs[1..]))
  }

  /** `os.walk(root, topdown=True)`: the directory first, then each
      sub-directory's walk in listing order. With `prune` the consumer
      removes ".git" from every `folders` list before the walk descends,
      and `list.remove` takes out only the first ".git"; `pending` says
      that this one is still to be removed from `fs`. */
  function Walk(root: string, trail: seq<string>, d: Dir, prune: bool): seq<Step>
    decreases d, 1
  {
    [Step(root, trail, d.files)] + WalkFolders(root, trail, d.folders, prune, prune)
  }

  function WalkFolders(root: string, trail: seq<string>, fs: seq<Folder>, prune: bool, pending: bool): seq<Step>
    decreases fs, 0
  {
    if fs == [] then []
    else if pending && fs[0].name == ".git" then WalkFolders(root, trail, fs[1..], prune, false)
    else Walk(Join(root, fs[0].name), trail + [fs[0].name], fs[0].dir, prune)
         + WalkFolders(root, trail, fs[1..], prune, pending)
  }

  /** The walk is top-down: a directory comes before everything below it. */
  lemma WalkStartsAtTop(root: string, trail: seq<string>, d: Dir, prune: bool)
    ensures Walk(root, trail, d, prune) != [] && Walk(root, trail, d, prune)[0] == Step(root, trail, d.files)
  {
  }

  /** ".git" is never walked into when it is pruned: a step below the top
      of a pruned walk has ".git" in its trail only if the top has. */
  lemma {:induction false} PrunedWalkSkipsGit(root: string, trail: seq<string>, d: Dir)
    requires Listed(d)
    ensures forall s :: s in Walk(root, trail, d, true) && ".git" in s.trail ==> ".git" in trail
    decreases d, 1
  {
    PrunedFoldersSkipGit(root, trail, d.folders, true);
  }

  lemma {:induction false} PrunedFoldersSkipGit(root: string, trail: seq<string>, fs: seq<Folder>, pending: bool)
    requires ListedAll(fs)
    requires forall i, j :: 0 <= i < j < |fs| ==> fs[i].name != fs[j].name
    requires !pending ==> forall i :: 0 <= i < |fs| ==> fs[i].name != ".git"
    ensures forall s :: s in WalkFolders(root, trail, fs, true, pending) && ".git" in s.trail ==> ".git" in trail
    decreases fs, 0
  {
    if fs != [] {
      var rest := fs[1..];
      assert forall i :: 0 <= i < |rest| ==> rest[i] == fs[i + 1];
      if pending && fs[0].name == ".git" {
        PrunedFoldersSkipGit(root, trail, rest, false);
      } else {
        var t := trail + [fs[0].name];
        PrunedWalkSkipsGit(Join(root, fs[0].name), t, fs[0].dir);
        PrunedFoldersSkipGit(root, trail, rest, pending);
        forall s | s in WalkFolders(root, trail, fs, true, pending) && ".git" in s.trail
          ensures ".git" in trail
        {
          if s in Walk(Join(root, fs[0].name), t, fs[0].dir, true) {
            assert ".git" in t;
            assert fs[0].name != ".git";
          }
        }
      }
    }
  }

  /** Without pruning a ".git" folder is walked like any other. */
  lemma GitWalkedUnpruned(root: string, trail: seq<string>, g: Dir, rest: seq<Folder>)
    ensures Step(Join(root, ".git"), trail + [".git"], g.files) in WalkFolders(root, trail, [Folder(".git", g)] + rest, false, false)
  {
    assert ([Folder(".git", g)] + rest)[1..] == rest;
  }

  // ----- create_file_index -----

  /** One `{"path": root, "name": file_name}` of the index. */
  datatype FileEntry = FileEntry(path: string, name: string)

  /** The files of `steps`, counted. */
  function FileCount(steps: seq<Step>): nat
  {
    if steps == [] then 0 else FileCount(steps[..|steps| - 1]) + |steps[|steps| - 1].files|
  }

  function StepEntries(s: Step, n: nat): (r: seq<FileEntry>)
    requires n <= |s.files|
    ensures |r| == n
    ensures forall j :: 0 <= j < n ==> r[j] == FileEntry(s.root, s.files[j].name)
  {
    if n == 0 then [] else StepEntries(s, n - 1) + [FileEntry(s.root, s.files[n - 1].name)]
  }

  /** The entries appended for `steps`, step by step and file by file. */
  function Entries(steps: seq<Step>): seq<FileEntry>
  {
    if steps == [] then []
    else
      var last := steps[|steps| - 1];
      Entries(steps[..|steps| - 1]) + StepEntries(last, |last.files|)
  }

  /** `create_file_index(path)`. */
  method CreateFileIndex(path: string, d: Dir) returns (index: seq<FileEntry>)
    ensures index == Entries(Walk(path, [], d, true))
  {
    var steps := Walk(path, [], d, true);
    index := [];
    var i := 0;
    while i < |steps|
      invariant 0 <= i <= |steps|
      invariant index == Entries(steps[..i])
    {
      var files := steps[i].files;
      var j := 0;
      while j < |files|
        invariant 0 <= j <= |files|
        invariant index == Entries(steps[..i]) + StepEntries(steps[i], j)
      {
        index := index + [FileEntry(steps[i].root, files[j].name)];
        j := j + 1;
      }
      assert steps[..i + 1][..i] == steps[..i];
      i := i + 1;
    }
    assert steps[..i] == steps;
  }

  /** The index holds one entry per file of the walk, with the directory
      it was listed in, and no other. */
  lemma {:induction false} EntriesExactly(steps: seq<Step>, e: FileEntry)
    ensures e in Entries(steps) <==>
            exists i, j :: 0 <= i < |steps| && 0 <= j < |steps[i].files|
                           && e == FileEntry(steps[i].root, steps[i].files[j].name)
  {
    if e in Entries(steps) {
      var i, j := EntryOrigin(steps, e);
    }
    if exists i, j :: 0 <= i < |steps| && 0 <= j < |steps[i].files| && e == FileEntry(steps[i].root, steps[i].files[j].name) {
      var i, j :| 0 <= i < |steps| && 0 <= j < |steps[i].files| && e == FileEntry(steps[i].root, steps[i].files[j].name);
      EntryIn(steps, i, j);
    }
  }

  /** The file of the walk an entry stands for. */
  lemma {:induction false} EntryOrigin(steps: seq<Step>, e: FileEntry) returns (i: nat, j: nat)
    requires e in Entries(steps)
    ensures i < |steps| && j < |steps[i].files| && e == FileEntry(steps[i].root, steps[i].files[j].name)
  {
    var init := steps[..|steps| - 1];
    var last := steps[|steps| - 1];
    var tail := StepEntries(last, |last.files|);
    assert Entries(steps) == Entries(init) + tail;
    if e in Entries(init) {
      i, j := EntryOrigin(init, e);
      assert steps[i] == init[i];
    } else {
      i := |steps| - 1;
      j :| 0 <= j < |tail| && tail[j] == e;
    }
  }

  /** Every file of the walk has its entry. */
  lemma {:induction false} EntryIn(steps: seq<Step>, i: nat, j: nat)
    requires i < |steps| && j < |steps[i].files|
    ensures FileEntry(steps[i].root, steps[i].files[j].name) in Entries(steps)
  {
    var init := steps[..|steps| - 1];
    var last := steps[|steps| - 1];
    var tail := StepEntries(last, |last.files|);
    assert Entries(steps) == Entries(init) + tail;
    if i < |init| {
      assert init[i] == steps[i];
      EntryIn(init, i, j);
    } else {
      assert tail[j] == FileEntry(steps[i].root, steps[i].files[j].name);
    }
  }

  /** One entry per file of the walk. */
  lemma {:induction false} EntriesCount(steps: seq<Step>)
    ensures |Entries(steps)| == FileCount(steps)
  {
    if steps != [] {
      EntriesCount(steps[..|steps| - 1]);
    }
  }

  /** The index of a directory holding one file and no folder is that one
      file under the given path. */
  lemma SingleFileIndex(path: string, f: File)
    ensures Entries(Walk(path, [], Dir([f], []), true)) == [FileEntry(path, f.name)]
  {
    var steps := Walk(path, [], Dir([f], []), true);
    assert steps == [Step(path, [], [f])];
    assert steps[..0] == [];
  }

  // ----- find_files_recursive -----

  /** What file `f` listed under `root` yields. */
  function Yield(name: string, root: string, f: File): seq<string>
  {
    if Contains(f.name, name) then [Join(root, f.name)] else []
  }

  function StepFound(name: string, s: Step, n: nat): seq<string>
    requires n <= |s.files|
  {
    if n == 0 then [] else StepFound(name, s, n - 1) + Yield(name, s.root, s.files[n - 1])
  }

  /** The paths yielded for `steps`, in order. */
  function Found(name: string, steps: seq<Step>): seq<string>
  {
    if steps == [] then []
    else
      var last := steps[|steps| - 1];
      Found(name, steps[..|steps| - 1]) + StepFound(name, last, |last.files|)
  }

  /** The generator `find_files_recursive(name, path)`, drained into a list. */
  method FindFilesRecursive(name: string, path: string, d: Dir) returns (found: seq<string>)
    ensures found == Found(name, Walk(path, [], d, false))
  {
    var steps := Walk(path, [], d, false);
    found := [];
    var i := 0;
    while i < |steps|
      invariant 0 <= i <= |steps|
      invariant found == Found(name, steps[..i])
    {
      var files := steps[i].files;
      var j := 0;
      while j < |files|
        invariant 0 <= j <= |files|
        invariant found == Found(name, steps[..i]) + StepFound(name, steps[i], j)
      {
        if Contains(files[j].name, name) {
          found := found + [Join(steps[i].root, files[j].name)];
        }
        j := j + 1;
      }
      assert steps[..i + 1][..i] == steps[..i];
      i := i + 1;
    }
    assert steps[..i] == steps;
  }

  lemma {:induction false} StepFoundExactly(name: string, s: Step, n: nat, p: string)
    requires n <= |s.files|
    ensures p in StepFound(name, s, n) <==>
            exists j :: 0 <= j < n && Contains(s.files[j].name, name) && p == Join(s.root, s.files[j].name)
  {
    if n > 0 {
      StepFoundExactly(name, s, n - 1, p);
    }
  }

  /** Every file of the walk whose name contains `name` is yielded, not
      only the first one, and nothing else is. */
  lemma {:induction false} FoundExactly(name: string, steps: seq<Step>, p: string)
    ensures p in Found(name, steps) <==>
            exists i, j :: 0 <= i < |steps| && 0 <= j < |steps[i].files|
                           && Contains(steps[i].files[j].name, name) && p == Join(steps[i].root, steps[i].files[j].name)
  {
    if steps != [] {
      var init := steps[..|steps| - 1];
      var last := steps[|steps| - 1];
      FoundExactly(name, init, p);
      StepFoundExactly(name, last, |last.files|, p);
      assert forall i :: 0 <= i < |init| ==> init[i] == steps[i];
    }
  }

  /** Two matching files of one directory are both yielded, in listing
      order. */
  lemma BothMatchesYielded(name: string, path: string, a: File, b: File)
    requires Contains(a.name, name) && Contains(b.name, name)
    ensures Found(name, Walk(path, [], Dir([a, b], []), false)) == [Join(path, a.name), Join(path, b.name)]
  {
    var s := Step(path, [], [a, b]);
    var steps := Walk(path, [], Dir([a, b], []), false);
    assert steps == [s];
    assert steps[..0] == [];
    assert StepFound(name, s, 1) == [Join(path, a.name)];
  }

  // ----- find_in_file -----

  /** One `{"term", "line", "searchfile", "linenumber"}` result. */
  datatype Hit = Hit(term: string, line: string, searchfile: string, linenumber: nat)

  /** The type filter of line 67: an empty list lets every file through. */
  predicate Searched(whitelist: seq<string>, name: string)
  {
    Suffix(name) in whitelist || whitelist == []
  }

  /** The results for line number `n` of `file`, term by term. */
  function LineHits(terms: seq<string>, line: string, file: string, n: nat): seq<Hit>
  {
    if terms == [] then []
    else
      var t := terms[|terms| - 1];
      LineHits(terms[..|terms| - 1], line, file, n) + (if Contains(line, t) then [Hit(t, Strip(line), file, n)] else [])
  }

  /** The results for the first `n` lines of a file, numbered from 1. */
  function FileHits(terms: seq<string>, lines: seq<string>, n: nat, file: string): seq<Hit>
    requires n <= |lines|
  {
    if n == 0 then [] else FileHits(terms, lines, n - 1, file) + LineHits(terms, lines[n - 1], file, n)
  }

  /** What file `f` listed under `root` contributes: its results when
      the type filter lets it through, else nothing. */
  function FileResults(terms: seq<string>, keep: string -> bool, root: string, f: File): seq<Hit>
  {
    if keep(f.name) then FileHits(terms, f.lines, |f.lines|, Join(root, f.name)) else []
  }

  /** The results for the first `n` files of a step. */
  function StepHits(terms: seq<string>, keep: string -> bool, s: Step, n: nat): seq<Hit>
    requires n <= |s.files|
  {
    if n == 0 then [] else StepHits(terms, keep, s, n - 1) + FileResults(terms, keep, s.root, s.files[n - 1])
  }

  function WalkHits(terms: seq<string>, keep: string -> bool, steps: seq<Step>): seq<Hit>
  {
    if steps == [] then []
    else
      var last := steps[|steps| - 1];
      WalkHits(terms, keep, steps[..|steps| - 1]) + StepHits(terms, keep, last, |last.files|)
  }

  /** What `find_in_file(path, search_terms, whitelisted_file_types)`
      returns: nothing at all, without a walk, when there is no term. */
  function SearchResults(path: string, d: Dir, terms: seq<string>, whitelist: seq<string>): seq<Hit>
  {
    if terms == [] then [] else WalkHits(terms, name => Searched(whitelist, name), Walk(path, [], d, false))
  }

  /** `find_in_file(path, search_terms, whitelisted_file_types)`. */
  method FindInFile(path: string, d: Dir, terms: seq<string>, whitelist: seq<string>) returns (results: seq<Hit>)
    ensures results == SearchResults(path, d, terms, whitelist)
  {
    results := [];
    if terms == [] {
      return;
    }
    var keep := name => Searched(whitelist, name);
    var steps := Walk(path, [], d, false);
    var i := 0;
    while i < |steps|
      invariant 0 <= i <= |steps|
      invariant results == WalkHits(terms, keep, steps[..i])
    {
      results := SearchStep(results, terms, keep, steps[i]);
      assert steps[..i + 1][..i] == steps[..i];
      i := i + 1;
    }
    assert steps[..i] == steps;
  }

  /** The loop over the files of one walked directory. */
  method SearchStep(before: seq<Hit>, terms: seq<string>, keep: string -> bool, s: Step) returns (results: seq<Hit>)
    ensures results == before + StepHits(terms, keep, s, |s.files|)
  {
    results := before;
    var j := 0;
    while j < |s.files|
      invariant 0 <= j <= |s.files|
      invariant results == before + StepHits(terms, keep, s, j)
    {
      results := SearchFile(results, terms, keep, s.root, s.files[j]);
      j := j + 1;
    }
  }

  /** The body of the loop over `directory[2]`: searching one file (or
      skipping it) appends its results to `before`. */
  method SearchFile(before: seq<Hit>, terms: seq<string>, keep: string -> bool, root: string, f: File) returns (results: seq<Hit>)
    ensures results == before + FileResults(terms, keep, root, f)
  {
    results := before;
    if keep(f.name) {
      var filePath := Join(root, f.name);
      var linenumber := 0;
      while linenumber < |f.lines|
        invariant 0 <= linenumber <= |f.lines|
        invariant results == before + FileHits(terms, f.lines, linenumber, filePath)
      {
        results := SearchLine(results, terms, f.lines[linenumber], filePath, linenumber + 1);
        linenumber := linenumber + 1;
      }
    }
  }

  /** The loop over `search_terms` for line number `n`. */
  method SearchLine(before: seq<Hit>, terms: seq<string>, line: string, file: string, n: nat) returns (results: seq<Hit>)
    ensures results == before + LineHits(terms, line, file, n)
  {
    results := before;
    var k := 0;
    while k < |terms|
      invariant 0 <= k <= |terms|
      invariant results == before + LineHits(terms[..k], line, file, n)
    {
      if Contains(line, terms[k]) {
        results := results + [Hit(terms[k], Strip(line), file, n)];
      }
      assert terms[..k + 1][..k] == terms[..k];
      k := k + 1;
    }
    assert terms[..k] == terms;
  }

  /** A line gives a result for exactly the terms it contains, each with
      the stripped line and the line's number. */
  lemma {:induction false} LineHitsExactly(terms: seq<string>, line: string, file: string, n: nat, h: Hit)
    ensures h in LineHits(terms, line, file, n) <==>
            h.term in terms && Contains(line, h.term) && h == Hit(h.term, Strip(line), file, n)
  {
    if terms != [] {
      var init := terms[..|terms| - 1];
      LineHitsExactly(init, line, file, n, h);
      assert terms == init + [terms[|terms| - 1]];
    }
  }

  /** A line containing every term gives one result per term, in the
      order of the terms. */
  lemma {:induction false} LineHitsInTermOrder(terms: seq<string>, line: string, file: string, n: nat)
    requires forall i :: 0 <= i < |terms| ==> Contains(line, terms[i])
    ensures |LineHits(terms, line, file, n)| == |terms|
    ensures forall i :: 0 <= i < |terms| ==> LineHits(terms, line, file, n)[i] == Hit(terms[i], Strip(line), file, n)
  {
    if terms != [] {
      LineHitsInTermOrder(terms[..|terms| - 1], line, file, n);
    }
  }

  /** A line containing no term gives no result. */
  lemma {:induction false} LineWithoutTerms(terms: seq<string>, line: string, file: string, n: nat)
    requires forall i :: 0 <= i < |terms| ==> !Contains(line, terms[i])
    ensures LineHits(terms, line, file, n) == []
  {
    if terms != [] {
      LineWithoutTerms(terms[..|terms| - 1], line, file, n);
    }
  }

  /** `h` reports line `h.linenumber` (counted from 1, at most `n`) of
      `file`: a line holding the term `h.term`, stripped. */
  predicate Origin(terms: seq<string>, lines: seq<string>, n: nat, file: string, h: Hit)
    requires n <= |lines|
  {
    && 1 <= h.linenumber <= n && h.term in terms && Contains(lines[h.linenumber - 1], h.term)
    && h == Hit(h.term, Strip(lines[h.linenumber - 1]), file, h.linenumber)
  }

  /** The results of a file: each names a line by its 1-based number and
      carries that line stripped, and every term a line contains gives one. */
  lemma {:induction false} FileHitsExactly(terms: seq<string>, lines: seq<string>, n: nat, file: string, h: Hit)
    requires n <= |lines|
    ensures h in FileHits(terms, lines, n, file) <==> Origin(terms, lines, n, file, h)
  {
    if n > 0 {
      FileHitsExactly(terms, lines, n - 1, file, h);
      LineHitsExactly(terms, lines[n - 1], file, n, h);
    }
  }

  /** `h` is a result of file `f` listed under `root`: the type filter
      lets the file through and `h` reports one of its lines. */
  predicate FileOrigin(terms: seq<string>, keep: string -> bool, root: string, f: File, h: Hit)
  {
    keep(f.name) && Origin(terms, f.lines, |f.lines|, Join(root, f.name), h)
  }

  lemma FileResultsExactly(terms: seq<string>, keep: string -> bool, root: string, f: File, h: Hit)
    ensures h in FileResults(terms, keep, root, f) <==> FileOrigin(terms, keep, root, f, h)
  {
    FileHitsExactly(terms, f.lines, |f.lines|, Join(root, f.name), h);
  }

  lemma {:induction false} StepHitsFrom(terms: seq<string>, keep: string -> bool, s: Step, n: nat, h: Hit)
    requires n <= |s.files|
    ensures h in StepHits(terms, keep, s, n) <==> exists j :: 0 <= j < n && h in FileResults(terms, keep, s.root, s.files[j])
  {
    if n > 0 {
      StepHitsFrom(terms, keep, s, n - 1, h);
    }
  }

  /** The file of a step a result comes from. */
  lemma {:induction false} StepHitOrigin(terms: seq<string>, keep: string -> bool, s: Step, n: nat, h: Hit) returns (j: nat)
    requires n <= |s.files| && h in StepHits(terms, keep, s, n)
    ensures j < n && h in FileResults(terms, keep, s.root, s.files[j])
  {
    if h in StepHits(terms, keep, s, n - 1) {
      j := StepHitOrigin(terms, keep, s, n - 1, h);
    } else {
      j := n - 1;
    }
  }

  /** The results of the walk are those of its files, each file taken in
      the directory it was listed in. */
  lemma {:induction false} WalkHitsFrom(terms: seq<string>, keep: string -> bool, steps: seq<Step>, h: Hit)
    ensures h in WalkHits(terms, keep, steps) <==>
            exists i, j :: 0 <= i < |steps| && 0 <= j < |steps[i].files| && h in FileResults(terms, keep, steps[i].root, steps[i].files[j])
  {
    if h in WalkHits(terms, keep, steps) {
      var i, j := WalkHitOrigin(terms, keep, steps, h);
    }
    if exists i, j :: 0 <= i < |steps| && 0 <= j < |steps[i].files| && h in FileResults(terms, keep, steps[i].root, steps[i].files[j]) {
      var i, j :| 0 <= i < |steps| && 0 <= j < |steps[i].files| && h in FileResults(terms, keep, steps[i].root, steps[i].files[j]);
      WalkHitIn(terms, keep, steps, i, j, h);
    }
  }

  /** The file of the walk a result comes from. */
  lemma {:induction false} WalkHitOrigin(terms: seq<string>, keep: string -> bool, steps: seq<Step>, h: Hit) returns (i: nat, j: nat)
    requires h in WalkHits(terms, keep, steps)
    ensures i < |steps| && j < |steps[i].files| && h in FileResults(terms, keep, steps[i].root, steps[i].files[j])
  {
    var init := steps[..|steps| - 1];
    var last := steps[|steps| - 1];
    assert WalkHits(terms, keep, steps) == WalkHits(terms, keep, init) + StepHits(terms, keep, last, |last.files|);
    if h in WalkHits(terms, keep, init) {
      i, j := WalkHitOrigin(terms, keep, init, h);
      assert steps[i] == init[i];
    } else {
      i := |steps| - 1;
      j := StepHitOrigin(terms, keep, last, |last.files|, h);
    }
  }

  /** A result of one file of the walk is a result of the walk. */
  lemma {:induction false} WalkHitIn(terms: seq<string>, keep: string -> bool, steps: seq<Step>, i: nat, j: nat, h: Hit)
    requires i < |steps| && j < |steps[i].files| && h in FileResults(terms, keep, steps[i].root, steps[i].files[j])
    ensures h in WalkHits(terms, keep, steps)
  {
    var init := steps[..|steps| - 1];
    var last := steps[|steps| - 1];
    assert WalkHits(terms, keep, steps) == WalkHits(terms, keep, init) + StepHits(terms, keep, last, |last.files|);
    if i < |init| {
      assert init[i] == steps[i];
      WalkHitIn(terms, keep, init, i, j, h);
    } else {
      StepHitsFrom(terms, keep, last, |last.files|, h);
    }
  }

  /** Every result of the walk reports a line of a file `keep` lets
      through, a line holding the term, and every term in every line of
      every such file gives a result. */
  lemma WalkHitsExactly(terms: seq<string>, keep: string -> bool, steps: seq<Step>, h: Hit)
    ensures h in WalkHits(terms, keep, steps) <==>
            exists i, j :: 0 <= i < |steps| && 0 <= j < |steps[i].files| && FileOrigin(terms, keep, steps[i].root, steps[i].files[j], h)
  {
    WalkHitsFrom(terms, keep, steps, h);
    forall i, j | 0 <= i < |steps| && 0 <= j < |steps[i].files|
      ensures h in FileResults(terms, keep, steps[i].root, steps[i].files[j]) <==> FileOrigin(terms, keep, steps[i].root, steps[i].files[j], h)
    {
      FileResultsExactly(terms, keep, steps[i].root, steps[i].files[j], h);
    }
  }

  /** The whole search: with no term nothing at all; otherwise exactly
      one result per term occurrence in a line of a walked file whose
      suffix the whitelist lets through, with the line's 1-based number,
      its stripped text and the path the file was opened by. */
  lemma SearchResultsExactly(path: string, d: Dir, terms: seq<string>, whitelist: seq<string>, h: Hit)
    ensures var steps := Walk(path, [], d, false);
            h in SearchResults(path, d, terms, whitelist) <==>
            terms != [] && exists i, j :: 0 <= i < |steps| && 0 <= j < |steps[i].files|
                                        && FileOrigin(terms, name => Searched(whitelist, name), steps[i].root, steps[i].files[j], h)
  {
    if terms != [] {
      WalkHitsExactly(terms, name => Searched(whitelist, name), Walk(path, [], d, false), h);
    }
  }

  /** The type filter: an empty whitelist lets every file through, a
      non-empty one exactly the files whose suffix it lists. */
  lemma WhitelistFilters(whitelist: seq<string>, name: string)
    ensures whitelist == [] ==> Searched(whitelist, name)
    ensures whitelist != [] ==> (Searched(whitelist, name) <==> Suffix(name) in whitelist)
  {
  }
}
